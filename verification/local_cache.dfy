/** The forward-fingerprint registry of `local_cache.py`: CQ-code parsing,
    extraction of a `(title, button)` fingerprint from the first and last
    messages of a forward bundle, the mixed numeric/string comparator, and
    the duplicate check, insertion and removal over the persisted
    `forward_config` map. The per-message cache files and the JSON file
    itself are not modelled: the map after an operation is the map saved. */
module LocalCache {

  import opened Text
  import opened Py

  /** The fixed first character of every title derived from a nested forward. */
  const Sentinel: string := "\U{8349}"

  datatype Fingerprint = Fingerprint(title: string, button: string)

  /** `forward_config`: message id (as a decimal string) to fingerprint. */
  type Config = map<string, Fingerprint>

  // ---------------------------------------------------------------------
  // The mixed comparator
  // ---------------------------------------------------------------------

  /** `_is_pure_number` on a string value. */
  function IsPureNumber(text: string): (r: bool)
    ensures r <==> text != "" && Digits(text) == text
  {
    DigitFilterFixes(text);
    text != "" && IsDigits(text)
  }

  /** A string is made of digits exactly when filtering its digits leaves it unchanged. */
  lemma DigitFilterFixes(text: string)
    ensures AllDigits(text) <==> Digits(text) == text
  {
    if AllDigits(text) { DigitsOfDigitString(text); }
    if Digits(text) == text { DigitsAreDigits(text); }
  }

  /** `_compare_values`: empty never matches; two digit strings compare by
      value, so leading zeros do not matter; anything else compares exactly. */
  function CompareValues(a: string, b: string): (r: bool)
    ensures r ==> a != "" && b != ""
    ensures IsDigits(a) && IsDigits(b) ==> (r <==> StripLeadingZeros(a) == StripLeadingZeros(b))
    ensures !(IsDigits(a) && IsDigits(b)) ==> (r <==> a != "" && a == b)
  {
    if a == "" || b == "" then false
    else if IsPureNumber(a) && IsPureNumber(b) then
      SameValueIffSameCanonicalForm(a, b);
      DecimalValue(a) == DecimalValue(b)
    else a == b
  }

  /** The comparator is an equivalence on non-empty strings. */
  lemma CompareIsEquivalence(a: string, b: string, c: string)
    ensures a != "" ==> CompareValues(a, a)
    ensures CompareValues(a, b) ==> CompareValues(b, a)
    ensures CompareValues(a, b) && CompareValues(b, c) ==> CompareValues(a, c)
  {
  }

  /** A leading zero does not change a number: "07" equals "7", and by
      transitivity "007" does too. */
  lemma LeadingZeroIgnored(s: string)
    requires IsDigits(s)
    ensures CompareValues("0" + s, s)
  {
    var z := "0" + s;
    assert z[0] == '0' && z[1..] == s;
    assert StripLeadingZeros(z) == StripLeadingZeros(s);
    assert IsDigits(z) by {
      assert forall i :: 1 <= i < |z| ==> z[i] == s[i - 1];
    }
  }

  /** Text that is not all digits is compared exactly: "7a" is not "7",
      and the empty string matches nothing. */
  lemma MixedTextComparedExactly()
    ensures !CompareValues("7a", "7") && !CompareValues("", "7")
  {
    assert !IsDigits("7a") by { assert !IsDigit("7a"[1]); }
  }

  // ---------------------------------------------------------------------
  // Digits and forward titles
  // ---------------------------------------------------------------------

  /** `_extract_numbers_from_content`: the digit runs of `content`, joined. */
  function ExtractNumbers(content: string): (r: string)
    ensures r == Digits(content)
  {
    RunsJoinToDigits(content);
    if content == "" then "" else Concat(DigitRuns(content))
  }

  /** The extracted numbers are all digits, and extracting again changes nothing. */
  lemma NumbersIdempotent(content: string)
    ensures AllDigits(ExtractNumbers(content))
    ensures ExtractNumbers(ExtractNumbers(content)) == ExtractNumbers(content)
  {
    DigitsAreDigits(content);
    DigitsOfDigitString(Digits(content));
  }

  /** The title of a nested forward: the sentinel followed by its digits. */
  function ForwardTitle(content: string): (r: string)
    ensures r == Sentinel + Digits(content)
    ensures r[0] == Sentinel[0]
  {
    var numbers := ExtractNumbers(content);
    if numbers != "" then Sentinel + numbers else Sentinel
  }

  // ---------------------------------------------------------------------
  // CQ codes: `[CQ:type,k=v,...]rest`
  // ---------------------------------------------------------------------

  datatype CqCode = CqCode(kind: string, params: map<string, string>, rest: string)

  /** The item `k=v` (split at its first `=`) sets key `k`. */
  predicate Defines(item: string, key: string) {
    '=' in item && BeforeFirst(item, '=') == key
  }

  /** The parameter dict built from the comma-separated items: items without
      `=` are skipped, and a later item overwrites an earlier one. */
  function ParseParams(items: seq<string>): (r: map<string, string>)
    ensures forall k :: k in r ==> exists i :: 0 <= i < |items| && Defines(items[i], k)
  {
    if items == [] then map[]
    else
      var last := items[|items| - 1];
      var earlier := ParseParams(items[..|items| - 1]);
      if '=' in last then earlier[BeforeFirst(last, '=') := AfterFirst(last, '=')]
      else earlier
  }

  /** The index of the last item that sets `key`, or -1 if none does. */
  function LastDefiner(items: seq<string>, key: string): (i: int)
    ensures -1 <= i < |items|
    ensures i >= 0 ==> Defines(items[i], key)
    ensures forall j :: i < j < |items| ==> !Defines(items[j], key)
  {
    if items == [] then -1
    else if Defines(items[|items| - 1], key) then |items| - 1
    else LastDefiner(items[..|items| - 1], key)
  }

  /** A key is present exactly when some item sets it, and its value is the
      one given by the last such item. */
  lemma {:induction false} LastItemWins(items: seq<string>, key: string)
    ensures key in ParseParams(items) <==> LastDefiner(items, key) >= 0
    ensures key in ParseParams(items) ==>
              ParseParams(items)[key] == AfterFirst(items[LastDefiner(items, key)], '=')
  {
    if items != [] {
      var n := |items| - 1;
      LastItemWins(items[..n], key);
      if !Defines(items[n], key) {
        var i := LastDefiner(items[..n], key);
        if i >= 0 {
          assert items[..n][i] == items[i];
        }
      }
    }
  }

  /** The inside of a CQ code split at its first comma into the type and
      the parameter text (empty when there is no comma). */
  function SplitCqBody(body: string): (r: (string, string))
    ensures ',' !in r.0
    ensures ',' in body ==> body == r.0 + "," + r.1
    ensures ',' !in body ==> r == (body, "")
  {
    var comma := Find(body, ',');
    if comma < 0 then (body, "")
    else
      assert body == body[..comma] + "," + body[comma + 1..];
      (body[..comma], body[comma + 1..])
  }

  /** The parse of a raw message that starts with `[CQ:` and has a `]`: the
      type runs to the first comma before the first `]`, the parameters
      follow it, and the rest is everything after the first `]`. */
  function ParseCq(raw: string): (r: Option<CqCode>)
    ensures r.None? <==> !StartsWith(raw, "[CQ:") || ']' !in raw
  {
    if !StartsWith(raw, "[CQ:") then None
    else
      var close := Find(raw, ']');
      if close < 0 then None
      else
        assert close >= 4 by {
          assert forall k :: 0 <= k < 4 ==> raw[k] == "[CQ:"[k];
        }
        var (kind, paramsText) := SplitCqBody(raw[4..close]);
        Some(CqCode(kind, ParseParams(Split(paramsText, ',')), raw[close + 1..]))
  }

  /** A CQ code whose inside has no `]` parses into the pieces of its inside
      and the text after it. */
  lemma ParseCqOfCode(body: string, rest: string)
    requires ']' !in body
    ensures var (kind, paramsText) := SplitCqBody(body);
            ParseCq("[CQ:" + body + "]" + rest) == Some(CqCode(kind, ParseParams(Split(paramsText, ',')), rest))
  {
    var raw := "[CQ:" + body + "]" + rest;
    assert raw[..4] == "[CQ:";
    assert raw[..4 + |body|] == "[CQ:" + body;
    assert raw[4 + |body|] == ']';
    assert Find(raw, ']') == 4 + |body|;
    assert raw[4..4 + |body|] == body;
    assert raw[4 + |body| + 1..] == rest;
  }

  /** A CQ-code item or type may not contain the two delimiters. */
  predicate CqSafe(s: string) {
    ',' !in s && ']' !in s
  }

  /** A raw message made of one CQ code followed by ordinary text. */
  function FormatCq(kind: string, items: seq<string>, rest: string): string {
    "[CQ:" + CqBody(kind, items) + "]" + rest
  }

  function CqBody(kind: string, items: seq<string>): string {
    if items == [] then kind else kind + "," + Join(",", items)
  }

  lemma NoParamText()
    ensures ParseParams(Split("", ',')) == map[]
  {
    assert Split("", ',') == [""];
    assert [""][..0] == [];
  }

  lemma SplitFormattedBody(kind: string, items: seq<string>)
    requires CqSafe(kind) && items != []
    ensures SplitCqBody(kind + "," + Join(",", items)) == (kind, Join(",", items))
  {
    var body := kind + "," + Join(",", items);
    assert body[|kind|] == ',';
    assert body[..|kind|] == kind;
    assert Find(body, ',') == |kind|;
    assert body[|kind| + 1..] == Join(",", items);
  }

  /** Parsing a formatted CQ code gives back its type, the parameters of its
      items and the text after it. */
  lemma FormatCqRoundTrip(kind: string, items: seq<string>, rest: string)
    requires CqSafe(kind)
    requires forall i :: 0 <= i < |items| ==> CqSafe(items[i])
    ensures ParseCq(FormatCq(kind, items, rest)) == Some(CqCode(kind, ParseParams(items), rest))
  {
    JoinAvoids(items, ']');
    ParseCqOfCode(CqBody(kind, items), rest);
    if items == [] {
      NoParamText();
    } else {
      SplitFormattedBody(kind, items);
      SplitJoinRoundTrip(items, ',');
    }
  }

  lemma {:induction false} JoinAvoids(items: seq<string>, c: char)
    requires c != ','
    requires forall i :: 0 <= i < |items| ==> c !in items[i]
    ensures c !in Join(",", items)
  {
    if |items| > 1 {
      JoinAvoids(items[1..], c);
    }
  }

  /** `_extract_raw_message_content`: a non-string or empty value gives "";
      text that is not a complete CQ code is returned as is; otherwise the
      result depends on the CQ type. */
  function ExtractRawMessageContent(raw: Json): (r: string)
    ensures !raw.Str? || raw.sval == "" ==> r == ""
    ensures raw.Str? && ParseCq(raw.sval).None? ==> r == raw.sval
    ensures raw.Str? && ParseCq(raw.sval).Some? ==>
              var cq := ParseCq(raw.sval).value;
              && (cq.kind == "forward" ==> r == Sentinel + Digits(GetParam(cq, "content")))
              && (cq.kind in {"image", "video"} ==> r == GetParam(cq, "file"))
              && (cq.kind == "reply" ==> r == Strip(cq.rest))
              && (cq.kind !in {"forward", "image", "video", "reply"} ==> r == raw.sval)
  {
    if !Truthy(raw) || !raw.Str? then ""
    else
      match ParseCq(raw.sval)
      case None => raw.sval
      case Some(cq) =>
        if cq.kind == "forward" then ForwardTitle(GetParam(cq, "content"))
        else if cq.kind in {"image", "video"} then GetParam(cq, "file")
        else if cq.kind == "reply" then Strip(cq.rest)
        else raw.sval
  }

  /** `params.get(key, "")`. */
  function GetParam(cq: CqCode, key: string): string {
    if key in cq.params then cq.params[key] else ""
  }

  lemma KindIsSafe(kind: string)
    requires kind in {"forward", "reply", "image", "video"}
    ensures CqSafe(kind)
  {
  }

  /** A reply keeps only the text after the CQ code, without surrounding blanks. */
  lemma ReplyKeepsTrailingText(items: seq<string>, before: string, text: string, after: string)
    requires forall i :: 0 <= i < |items| ==> CqSafe(items[i])
    requires AllSpace(before) && AllSpace(after)
    requires text != [] && !IsSpace(text[0]) && !IsSpace(text[|text| - 1])
    ensures ExtractRawMessageContent(Str(FormatCq("reply", items, before + text + after))) == text
  {
    FormatCqRoundTrip("reply", items, before + text + after);
    StripSurrounded(before, text, after);
  }

  /** A forward CQ code is reduced to the sentinel and the digits of its
      last `content=` item. */
  lemma ForwardCodeTitle(items: seq<string>, rest: string)
    requires forall j :: 0 <= j < |items| ==> CqSafe(items[j])
    ensures var i := LastDefiner(items, "content");
            ExtractRawMessageContent(Str(FormatCq("forward", items, rest)))
            == Sentinel + Digits(if i < 0 then "" else AfterFirst(items[i], '='))
  {
    var raw := FormatCq("forward", items, rest);
    KindIsSafe("forward");
    FormatCqRoundTrip("forward", items, rest);
    var cq := ParseCq(raw).value;
    assert cq.kind == "forward";
    LastItemWins(items, "content");
    assert ExtractRawMessageContent(Str(raw)) == Sentinel + Digits(GetParam(cq, "content"));
  }

  // ---------------------------------------------------------------------
  // Fingerprints of forward bundles
  // ---------------------------------------------------------------------

  /** A component dict whose `type` is exactly the string `t`. */
  predicate HasType(comp: Json, t: string) {
    comp.Obj? && GetOr(comp.fields, "type", Null) == Str(t)
  }

  /** `comp.get("data", {}).get("text", "")` of a text component, which
      `"".join` then requires to be a string. */
  function ComponentText(comp: Json): (r: Result<string>)
    requires comp.Obj?
    ensures r.Ok? <==> var d := GetOr(comp.fields, "data", Obj(map[]));
                       d.Obj? && GetOr(d.fields, "text", Str("")).Str?
    ensures r.Ok? ==> r.value == GetOr(GetOr(comp.fields, "data", Obj(map[])).fields, "text", Str("")).sval
  {
    var data := GetOr(comp.fields, "data", Obj(map[]));
    var text :- Get(data, "text", Str(""));
    if text.Str? then Ok(text.sval) else Raise("TypeError: sequence item: expected str instance")
  }

  /** The concatenated texts of the `text` components; other components
      contribute nothing. */
  function JoinTexts(comps: seq<Json>): (r: Result<string>)
    ensures r.Ok? <==> forall i :: 0 <= i < |comps| && HasType(comps[i], "text") ==> ComponentText(comps[i]).Ok?
    ensures (forall i :: 0 <= i < |comps| ==> !HasType(comps[i], "text")) ==> r == Ok("")
  {
    if comps == [] then Ok("")
    else if !HasType(comps[0], "text") then JoinTexts(comps[1..])
    else
      var head :- ComponentText(comps[0]);
      var tail :- JoinTexts(comps[1..]);
      Ok(head + tail)
  }

  /** The join distributes over concatenation: the texts of `a + b` are
      the texts of `a` followed by the texts of `b`. */
  lemma {:induction false} JoinTextsAppend(a: seq<Json>, b: seq<Json>)
    requires JoinTexts(a).Ok? && JoinTexts(b).Ok?
    ensures JoinTexts(a + b) == Ok(JoinTexts(a).value + JoinTexts(b).value)
  {
    if a == [] {
      assert a + b == b;
      assert JoinTexts(a).value == "";
      assert JoinTexts(a).value + JoinTexts(b).value == JoinTexts(b).value;
    } else {
      assert (a + b)[0] == a[0];
      assert (a + b)[1..] == a[1..] + b;
      JoinTextsAppend(a[1..], b);
      if HasType(a[0], "text") {
        ConcatAssoc(ComponentText(a[0]).value, JoinTexts(a[1..]).value, JoinTexts(b).value);
      }
    }
  }

  /** A single component contributes its own text when it is a text
      component, and nothing otherwise. */
  lemma JoinTextsOne(c: Json)
    ensures HasType(c, "text") ==> JoinTexts([c]) == ComponentText(c)
    ensures !HasType(c, "text") ==> JoinTexts([c]) == Ok("")
  {
    assert [c][1..] == [];
    if HasType(c, "text") && ComponentText(c).Ok? {
      assert ComponentText(c).value + "" == ComponentText(c).value;
    }
  }

  /** `_extract_message_text`: a non-empty `raw_message` wins; otherwise the
      text components of a list `message`, or a string `message` itself. */
  function ExtractMessageText(message: Json): (r: Result<string>)
    ensures !message.Obj? ==> r == Ok("")
    ensures message.Obj? && Truthy(GetOr(message.fields, "raw_message", Str(""))) ==>
              r == Ok(ExtractRawMessageContent(GetOr(message.fields, "raw_message", Str(""))))
    ensures message.Obj? && !Truthy(GetOr(message.fields, "raw_message", Str(""))) ==>
              var m := GetOr(message.fields, "message", Str(""));
              && (m.Arr? ==> r == JoinTexts(m.elems))
              && (m.Str? ==> r == Ok(m.sval))
              && (!m.Arr? && !m.Str? ==> r == Ok(""))
    ensures r.Raise? ==> message.Obj? && GetOr(message.fields, "message", Str("")).Arr?
  {
    if !message.Obj? then Ok("")
    else
      var raw := GetOr(message.fields, "raw_message", Str(""));
      if Truthy(raw) then Ok(ExtractRawMessageContent(raw))
      else
        match GetOr(message.fields, "message", Str(""))
        case Arr(comps) => JoinTexts(comps)
        case Str(s) => Ok(s)
        case _ => Ok("")
  }

  /** The index of the first component dict of type `forward`. */
  function FirstForward(comps: seq<Json>): (r: Option<nat>)
    ensures r.None? <==> forall i :: 0 <= i < |comps| ==> !HasType(comps[i], "forward")
    ensures r.Some? ==> r.value < |comps| && HasType(comps[r.value], "forward")
    ensures r.Some? ==> forall i :: 0 <= i < r.value ==> !HasType(comps[i], "forward")
  {
    if comps == [] then None
    else if HasType(comps[0], "forward") then Some(0)
    else
      match FirstForward(comps[1..])
      case None => None
      case Some(k) => Some(k + 1)
  }

  const NoFingerprint := Fingerprint("", "")

  /** The `content` of the first forward component, when that component's
      data is a dict. */
  function ForwardContent(data: map<string, Json>): Option<Json> {
    if "message" !in data || !data["message"].Arr? then None
    else
      match FirstForward(data["message"].elems)
      case None => None
      case Some(i) =>
        var forwardData := GetOr(data["message"].elems[i].fields, "data", Obj(map[]));
        if forwardData.Obj? then Some(GetOr(forwardData.fields, "content", Str(""))) else None
  }

  /** `_extract_content_info`: only the first forward component is read.
      No forward gives two empty fields; a string content gives the
      sentinel title and an empty button; a content that is neither a
      string nor a non-empty list gives two empty fields. */
  function ExtractContentInfo(data: map<string, Json>): (r: Result<Fingerprint>)
    ensures ("message" !in data || !data["message"].Arr?) ==> r == Ok(NoFingerprint)
    ensures "message" in data && data["message"].Arr? && FirstForward(data["message"].elems).None?
            ==> r == Ok(NoFingerprint)
    ensures ForwardContent(data).Some? && ForwardContent(data).value.Str? ==>
              r == Ok(Fingerprint(Sentinel + Digits(ForwardContent(data).value.sval), ""))
    ensures ForwardContent(data).Some? && !ForwardContent(data).value.Str?
            && !(ForwardContent(data).value.Arr? && ForwardContent(data).value.elems != []) ==>
              r == Ok(NoFingerprint)
    ensures r.Ok? && r.value.button != "" ==>
              ForwardContent(data).Some? && ForwardContent(data).value.Arr? && ForwardContent(data).value.elems != []
  {
    if "message" !in data || !data["message"].Arr? then Ok(NoFingerprint)
    else
      var comps := data["message"].elems;
      match FirstForward(comps)
      case None => Ok(NoFingerprint)
      case Some(i) =>
        var forwardData := GetOr(comps[i].fields, "data", Obj(map[]));
        var content :- Get(forwardData, "content", Str(""));
        match content
        case Str(s) => Ok(Fingerprint(ForwardTitle(s), ""))
        case Arr(leaves) =>
          if leaves == [] then Ok(NoFingerprint)
          else
            var title :- ExtractMessageText(leaves[0]);
            var button :- ExtractMessageText(leaves[|leaves| - 1]);
            Ok(Fingerprint(title, button))
        case _ => Ok(NoFingerprint)
  }

  /** Title from the first leaf, button from the last leaf: a bundle of
      leaves has the texts of its two ends, and fails exactly when one of
      them does. */
  lemma FingerprintFromEnds(data: map<string, Json>)
    requires ForwardContent(data).Some? && ForwardContent(data).value.Arr? && ForwardContent(data).value.elems != []
    ensures var leaves := ForwardContent(data).value.elems;
            var r := ExtractContentInfo(data);
            r.Ok? <==> ExtractMessageText(leaves[0]).Ok? && ExtractMessageText(leaves[|leaves| - 1]).Ok?
    ensures var leaves := ForwardContent(data).value.elems;
            var r := ExtractContentInfo(data);
            r.Ok? ==> r.value == Fingerprint(ExtractMessageText(leaves[0]).value,
                                             ExtractMessageText(leaves[|leaves| - 1]).value)
  {
    var comps := data["message"].elems;
    var i := FirstForward(comps).value;
    var forwardData := GetOr(comps[i].fields, "data", Obj(map[]));
    assert forwardData.Obj?;
    var content := GetOr(forwardData.fields, "content", Str(""));
    assert Get(forwardData, "content", Str("")) == Ok(content);
    assert content == ForwardContent(data).value;
    var leaves := content.elems;
    var title := ExtractMessageText(leaves[0]);
    var button := ExtractMessageText(leaves[|leaves| - 1]);
    assert ExtractContentInfo(data) ==
      if title.Raise? then Raise(title.error)
      else if button.Raise? then Raise(button.error)
      else Ok(Fingerprint(title.value, button.value));
  }

  // ---------------------------------------------------------------------
  // The registry
  // ---------------------------------------------------------------------

  /** A stored entry matches a candidate when both fields compare equal. */
  predicate Matches(stored: Fingerprint, candidate: Fingerprint) {
    CompareValues(stored.title, candidate.title) && CompareValues(stored.button, candidate.button)
  }

  /** The candidate has two non-empty fields and some stored entry matches it. */
  predicate Duplicated(config: Config, fp: Fingerprint) {
    fp.title != "" && fp.button != "" && exists k | k in config :: Matches(config[k], fp)
  }

  /** Entries with an empty field never match anything. */
  lemma EmptyEntriesNeverMatch(config: Config, fp: Fingerprint)
    requires Duplicated(config, fp)
    ensures exists k :: k in config && config[k].title != "" && config[k].button != ""
  {
  }

  /** `_is_duplicate_in_config`: a scan over the stored values. */
  method IsDuplicateInConfig(config: Config, fp: Fingerprint) returns (dup: bool)
    ensures dup <==> Duplicated(config, fp)
  {
    if fp.title == "" || fp.button == "" {
      return false;
    }
    var pending := config.Keys;
    while pending != {}
      invariant pending <= config.Keys
      invariant forall k :: k in config && k !in pending ==> !Matches(config[k], fp)
      decreases pending
    {
      var k :| k in pending;
      if Matches(config[k], fp) {
        return true;
      }
      pending := pending - {k};
    }
    return false;
  }

  /** `is_duplicate_forward`: extraction failures count as "not a duplicate". */
  function IsDuplicateForward(config: Config, data: map<string, Json>): (r: bool)
    ensures r <==> ExtractContentInfo(data).Ok? && Duplicated(config, ExtractContentInfo(data).value)
    ensures r ==> ExtractContentInfo(data).value.title != "" && ExtractContentInfo(data).value.button != ""
  {
    match ExtractContentInfo(data)
    case Raise(_) => false
    case Ok(fp) => fp.title != "" && fp.button != "" && Duplicated(config, fp)
  }

  /** The key of a message id: `str(msg_id)`. */
  function Key(msgId: int): string {
    IntToString(msgId)
  }

  datatype Updated = Updated(ok: bool, config: Config)

  /** The registry part of `add_cache`: with message data, record the
      fingerprint under `str(msg_id)` unless it duplicates a stored one. */
  function AddCache(config: Config, msgId: int, data: map<string, Json>): (r: Updated)
    ensures r.ok <==> |data| == 0 || ExtractContentInfo(data).Ok?
    ensures forall k :: k != Key(msgId) ==> (k in r.config <==> k in config)
    ensures forall k :: k in config && k != Key(msgId) ==> r.config[k] == config[k]
    ensures r.config != config ==> ExtractContentInfo(data).Ok? && Key(msgId) in r.config
                                   && r.config[Key(msgId)] == ExtractContentInfo(data).value
    ensures r.config == config <==> |data| == 0 || ExtractContentInfo(data).Raise?
                                    || Duplicated(config, ExtractContentInfo(data).value)
                                    || (Key(msgId) in config && config[Key(msgId)] == ExtractContentInfo(data).value)
  {
    if |data| == 0 then Updated(true, config)
    else
      match ExtractContentInfo(data)
      case Raise(_) => Updated(false, config)
      case Ok(fp) =>
        if Duplicated(config, fp) then Updated(true, config)
        else Updated(true, config[Key(msgId) := fp])
  }

  /** The registry part of `remove_cache`: only when the message's cache file
      exists, its key (if any) is deleted. */
  function RemoveCache(config: Config, msgId: int, fileExists: bool): (r: Updated)
    ensures r.ok == fileExists
    ensures Key(msgId) !in r.config || !fileExists
    ensures forall k :: k != Key(msgId) ==> (k in r.config <==> k in config)
    ensures forall k :: k in r.config ==> k in config && r.config[k] == config[k]
    ensures !fileExists ==> r.config == config
  {
    if !fileExists then Updated(false, config)
    else Updated(true, config - {Key(msgId)})
  }

  /** Once a bundle with a complete fingerprint is recorded, the same bundle
      is a duplicate, and recording it again under any id changes nothing. */
  lemma RecordedIsDuplicate(config: Config, msgId: int, otherId: int, data: map<string, Json>)
    requires |data| > 0 && ExtractContentInfo(data).Ok?
    requires ExtractContentInfo(data).value.title != "" && ExtractContentInfo(data).value.button != ""
    ensures IsDuplicateForward(AddCache(config, msgId, data).config, data)
    ensures AddCache(AddCache(config, msgId, data).config, otherId, data).config == AddCache(config, msgId, data).config
  {
    var fp := ExtractContentInfo(data).value;
    var c1 := AddCache(config, msgId, data).config;
    CompareIsEquivalence(fp.title, fp.title, fp.title);
    CompareIsEquivalence(fp.button, fp.button, fp.button);
    if !Duplicated(config, fp) {
      assert Matches(c1[Key(msgId)], fp);
    }
    assert Duplicated(c1, fp);
  }

  /** A bundle whose fingerprint has an empty field is never a duplicate and
      is always recorded, overwriting whatever its id held. */
  lemma EmptyFingerprintAlwaysRecorded(config: Config, msgId: int, data: map<string, Json>)
    requires |data| > 0 && ExtractContentInfo(data).Ok?
    requires ExtractContentInfo(data).value.title == "" || ExtractContentInfo(data).value.button == ""
    ensures !IsDuplicateForward(config, data)
    ensures AddCache(config, msgId, data).config == config[Key(msgId) := ExtractContentInfo(data).value]
  {
  }
}
