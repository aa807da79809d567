/** `MediaMonitorPlugin`: the message handler that relays monitored group
    messages. A forward bundle is fingerprinted, skipped when already seen,
    and otherwise relayed to every target group; any other message is cut
    down to its text and media, the media are downloaded, and the result is
    handed to the sender. Downloads, the bot API and the clock are
    parameters or left out. */
module Plugin {

  import opened Text
  import opened Py
  import Listen
  import LocalCache
  import Sender

  // ---------------------------------------------------------------------
  // Routing
  // ---------------------------------------------------------------------

  /** A component whose `type` is exactly "forward". */
  predicate IsForwardComp(comp: Json)
    requires comp.Obj?
  {
    GetOr(comp.fields, "type", Null) == Str("forward")
  }

  /** The loop of `is_forward_message`: it stops at the first forward
      component, so only a non-dict before it raises. */
  function AnyForward(comps: seq<Json>): (r: Result<bool>)
    ensures (forall i :: 0 <= i < |comps| ==> comps[i].Obj?) ==>
              r.Ok? && (r.value <==> exists i :: 0 <= i < |comps| && comps[i].Obj? && IsForwardComp(comps[i]))
    ensures r.Raise? ==> exists i :: 0 <= i < |comps| && !comps[i].Obj?
    ensures r == Ok(true) ==> exists i :: 0 <= i < |comps| && comps[i].Obj? && IsForwardComp(comps[i])
  {
    if comps == [] then Ok(false)
    else if !comps[0].Obj? then Raise("AttributeError: object has no attribute 'get'")
    else if IsForwardComp(comps[0]) then Ok(true)
    else
      var r := AnyForward(comps[1..]);
      assert forall i :: 0 <= i < |comps[1..]| ==> comps[1..][i] == comps[i + 1];
      r
  }

  /** `is_forward_message`: false without a `message` key, otherwise
      whether some component is a forward. */
  function IsForwardMessage(messageData: map<string, Json>): (r: Result<bool>)
    ensures "message" !in messageData ==> r == Ok(false)
    ensures "message" in messageData && messageData["message"].Arr? ==> r == AnyForward(messageData["message"].elems)
  {
    if "message" !in messageData then Ok(false)
    else
      var comps :- Elements(messageData["message"]);
      AnyForward(comps)
  }

  /** A forward anywhere after dict components is found, wherever it sits. */
  lemma ForwardFoundAnywhere(before: seq<Json>, forward: Json, after: seq<Json>)
    requires forall i :: 0 <= i < |before| ==> before[i].Obj? && !IsForwardComp(before[i])
    requires forward.Obj? && IsForwardComp(forward)
    ensures AnyForward(before + [forward] + after) == Ok(true)
  {
    if before != [] {
      assert (before + [forward] + after)[1..] == before[1..] + [forward] + after;
      ForwardFoundAnywhere(before[1..], forward, after);
    } else {
      assert (before + [forward] + after)[0] == forward;
    }
  }

  /** The group filter of `on_message`: no group is dropped; an empty
      monitor list takes every group; otherwise the group must be listed. */
  function AcceptsGroup(monitored: seq<string>, groupId: Option<string>): (r: bool)
    ensures groupId.None? ==> !r
    ensures groupId.Some? && groupId.value in monitored ==> r
    ensures groupId.Some? && groupId.value !in monitored ==> (r <==> |monitored| == 0)
  {
    groupId.Some? && (monitored == [] || groupId.value in monitored)
  }

  /** Listing more groups never drops one that was accepted, and an empty
      list accepts every group there is: the list only widens. */
  lemma MonitorListOnlyWidens(monitored: seq<string>, more: seq<string>, groupId: Option<string>)
    requires monitored != [] && AcceptsGroup(monitored, groupId)
    ensures AcceptsGroup(monitored + more, groupId)
    ensures AcceptsGroup([], groupId)
  {
  }

  /** Where `on_message` sends an event. */
  datatype Route = Ignored | ForwardPath | OrdinaryPath | Failed

  /** `on_message` after the adapter check: the group filter, then the
      message fetched by id (`get_msg`, which may fail), then the split
      between forward bundles and ordinary messages. */
  function OnMessage(monitored: seq<string>, groupId: Option<string>, fetched: Result<map<string, Json>>): (r: Route)
    ensures r == Ignored <==> !AcceptsGroup(monitored, groupId)
    ensures r == ForwardPath <==> AcceptsGroup(monitored, groupId) && fetched.Ok? && IsForwardMessage(fetched.value) == Ok(true)
    ensures r == OrdinaryPath <==> AcceptsGroup(monitored, groupId) && fetched.Ok? && IsForwardMessage(fetched.value) == Ok(false)
  {
    if !AcceptsGroup(monitored, groupId) then Ignored
    else
      match fetched
      case Raise(_) => Failed
      case Ok(data) =>
        match IsForwardMessage(data)
        case Raise(_) => Failed
        case Ok(isForward) => if isForward then ForwardPath else OrdinaryPath
  }

  // ---------------------------------------------------------------------
  // Ordinary messages
  // ---------------------------------------------------------------------

  /** One entry of `media_files`. */
  datatype Media = Media(kind: string, url: Json, data: Json)

  /** One entry of `message_cache`. */
  datatype CacheEntry = CacheEntry(components: seq<Json>, text: string, media: seq<Media>, processed: bool, isForward: bool)

  /** `comp.get("type", "").lower()` for a component the filter kept. */
  function KindOf(comp: Json): string
    requires Listen.Handled(comp)
  {
    Lower(GetOr(comp.fields, "type", Str("")).sval)
  }

  /** `comp.get("data", {})` for a component the filter kept. */
  function DataOf(comp: Json): map<string, Json>
    requires Listen.Handled(comp)
  {
    GetOr(comp.fields, "data", Obj(map[])).fields
  }

  /** `data.get("text", "")` of a kept component. */
  function TextOf(comp: Json): Json
    requires Listen.Handled(comp)
  {
    GetOr(DataOf(comp), "text", Str(""))
  }

  /** `data.get("url", "")` of a kept component. */
  function UrlOf(comp: Json): Json
    requires Listen.Handled(comp)
  {
    GetOr(DataOf(comp), "url", Str(""))
  }

  /** The truthy texts of the `text` components, in order (a `plain`
      component is kept by the filter but contributes nothing here). */
  function TextValues(comps: seq<Json>): (r: seq<Json>)
    requires forall i :: 0 <= i < |comps| ==> Listen.Handled(comps[i])
    ensures |r| <= |comps|
    ensures forall k :: 0 <= k < |r| ==> Truthy(r[k])
  {
    if comps == [] then []
    else
      (if KindOf(comps[0]) == "text" && Truthy(TextOf(comps[0])) then [TextOf(comps[0])] else [])
      + TextValues(comps[1..])
  }

  /** Every text collected is the text of a `text` component. */
  lemma {:induction false} TextValuesSound(comps: seq<Json>)
    requires forall i :: 0 <= i < |comps| ==> Listen.Handled(comps[i])
    ensures forall k :: 0 <= k < |TextValues(comps)| ==>
              exists i :: 0 <= i < |comps| && KindOf(comps[i]) == "text" && TextValues(comps)[k] == TextOf(comps[i])
  {
    if comps == [] {
      assert TextValues(comps) == [];
    } else {
      var tail := comps[1..];
      TextValuesSound(tail);
      var head := if KindOf(comps[0]) == "text" && Truthy(TextOf(comps[0])) then [TextOf(comps[0])] else [];
      var rest := TextValues(tail);
      assert TextValues(comps) == head + rest;
      forall k | 0 <= k < |TextValues(comps)|
        ensures exists i :: 0 <= i < |comps| && KindOf(comps[i]) == "text" && TextValues(comps)[k] == TextOf(comps[i])
      {
        if k < |head| {
          assert TextValues(comps)[k] == TextOf(comps[0]);
        } else {
          var k' := k - |head|;
          assert TextValues(comps)[k] == rest[k'];
          var j :| 0 <= j < |tail| && KindOf(tail[j]) == "text" && TextValues(tail)[k'] == TextOf(tail[j]);
          assert tail[j] == comps[j + 1];
        }
      }
    }
  }

  /** No truthy text of a `text` component is missed. */
  lemma {:induction false} TextValuesComplete(comps: seq<Json>)
    requires forall i :: 0 <= i < |comps| ==> Listen.Handled(comps[i])
    ensures forall i :: 0 <= i < |comps| && KindOf(comps[i]) == "text" && Truthy(TextOf(comps[i])) ==> TextOf(comps[i]) in TextValues(comps)
  {
    if comps != [] {
      var tail := comps[1..];
      TextValuesComplete(tail);
      var head := if KindOf(comps[0]) == "text" && Truthy(TextOf(comps[0])) then [TextOf(comps[0])] else [];
      var rest := TextValues(tail);
      assert TextValues(comps) == head + rest;
      forall i | 0 <= i < |comps| && KindOf(comps[i]) == "text" && Truthy(TextOf(comps[i]))
        ensures TextOf(comps[i]) in head + rest
      {
        if i > 0 {
          assert tail[i - 1] == comps[i];
          assert TextOf(tail[i - 1]) in rest;
        }
      }
    }
  }

  /** The texts of `a + b` are the texts of `a` followed by those of `b`:
      the collection keeps the components' order and every occurrence. */
  lemma {:induction false} TextValuesAppend(a: seq<Json>, b: seq<Json>)
    requires forall i :: 0 <= i < |a| ==> Listen.Handled(a[i])
    requires forall i :: 0 <= i < |b| ==> Listen.Handled(b[i])
    ensures TextValues(a + b) == TextValues(a) + TextValues(b)
  {
    if a == [] {
      assert a + b == b;
      assert TextValues(a) == [];
    } else {
      var ab := a + b;
      assert ab[0] == a[0];
      assert ab[1..] == a[1..] + b;
      TextValuesAppend(a[1..], b);
      TextValuesStep(ab);
      TextValuesStep(a);
      var head := if KindOf(a[0]) == "text" && Truthy(TextOf(a[0])) then [TextOf(a[0])] else [];
      ConcatAssoc(head, TextValues(a[1..]), TextValues(b));
    }
  }

  /** `TextValues` on a non-empty list: the head's contribution, then the rest. */
  lemma TextValuesStep(comps: seq<Json>)
    requires comps != [] && forall i :: 0 <= i < |comps| ==> Listen.Handled(comps[i])
    ensures TextValues(comps) == (if KindOf(comps[0]) == "text" && Truthy(TextOf(comps[0])) then [TextOf(comps[0])] else []) + TextValues(comps[1..])
  {
  }

  /** One component contributes its text exactly when it is a `text`
      component with a truthy text. */
  lemma TextValuesOne(c: Json)
    requires Listen.Handled(c)
    ensures TextValues([c]) == if KindOf(c) == "text" && Truthy(TextOf(c)) then [TextOf(c)] else []
  {
    assert [c][1..] == [];
  }

  /** The media types `process_ordinary_message` collects. */
  const MediaKinds: set<string> := {"image", "video", "record"}

  /** The image, video and voice components with a truthy url, in order. */
  function MediaFiles(comps: seq<Json>): (r: seq<Media>)
    requires forall i :: 0 <= i < |comps| ==> Listen.Handled(comps[i])
    ensures |r| <= |comps|
    ensures forall k :: 0 <= k < |r| ==> r[k].kind in MediaKinds && Truthy(r[k].url)
  {
    if comps == [] then []
    else
      (if KindOf(comps[0]) in MediaKinds && Truthy(UrlOf(comps[0])) then [MediaOf(comps[0])] else [])
      + MediaFiles(comps[1..])
  }

  /** The `media_files` entry of a kept component. */
  function MediaOf(comp: Json): Media
    requires Listen.Handled(comp)
  {
    Media(KindOf(comp), UrlOf(comp), Obj(DataOf(comp)))
  }

  /** Every media entry collected comes from one of the components. */
  lemma {:induction false} MediaFilesSound(comps: seq<Json>)
    requires forall i :: 0 <= i < |comps| ==> Listen.Handled(comps[i])
    ensures forall k :: 0 <= k < |MediaFiles(comps)| ==> exists i :: 0 <= i < |comps| && MediaFiles(comps)[k] == MediaOf(comps[i])
  {
    if comps == [] {
      assert MediaFiles(comps) == [];
    } else {
      var tail := comps[1..];
      MediaFilesSound(tail);
      var head := if KindOf(comps[0]) in MediaKinds && Truthy(UrlOf(comps[0])) then [MediaOf(comps[0])] else [];
      var rest := MediaFiles(tail);
      assert MediaFiles(comps) == head + rest;
      forall k | 0 <= k < |MediaFiles(comps)|
        ensures exists i :: 0 <= i < |comps| && MediaFiles(comps)[k] == MediaOf(comps[i])
      {
        if k < |head| {
          assert MediaFiles(comps)[k] == MediaOf(comps[0]);
        } else {
          var k' := k - |head|;
          assert MediaFiles(comps)[k] == rest[k'];
          var j :| 0 <= j < |tail| && MediaFiles(tail)[k'] == MediaOf(tail[j]);
          assert tail[j] == comps[j + 1];
        }
      }
    }
  }

  /** No image, video or voice component with a truthy url is missed. */
  lemma {:induction false} MediaFilesComplete(comps: seq<Json>)
    requires forall i :: 0 <= i < |comps| ==> Listen.Handled(comps[i])
    ensures forall i :: 0 <= i < |comps| && KindOf(comps[i]) in MediaKinds && Truthy(UrlOf(comps[i])) ==>
              MediaOf(comps[i]) in MediaFiles(comps)
  {
    if comps != [] {
      var tail := comps[1..];
      MediaFilesComplete(tail);
      var head := if KindOf(comps[0]) in MediaKinds && Truthy(UrlOf(comps[0])) then [MediaOf(comps[0])] else [];
      var rest := MediaFiles(tail);
      assert MediaFiles(comps) == head + rest;
      forall i | 0 <= i < |comps| && KindOf(comps[i]) in MediaKinds && Truthy(UrlOf(comps[i]))
        ensures MediaOf(comps[i]) in head + rest
      {
        if i > 0 {
          assert tail[i - 1] == comps[i];
          assert MediaOf(tail[i - 1]) in rest;
        }
      }
    }
  }

  /** The media of `a + b` are the media of `a` followed by those of `b`:
      the downloads follow the components' order, one per occurrence. */
  lemma {:induction false} MediaFilesAppend(a: seq<Json>, b: seq<Json>)
    requires forall i :: 0 <= i < |a| ==> Listen.Handled(a[i])
    requires forall i :: 0 <= i < |b| ==> Listen.Handled(b[i])
    ensures MediaFiles(a + b) == MediaFiles(a) + MediaFiles(b)
  {
    if a == [] {
      assert a + b == b;
      assert MediaFiles(a) == [];
    } else {
      var ab := a + b;
      assert ab[0] == a[0];
      assert ab[1..] == a[1..] + b;
      MediaFilesAppend(a[1..], b);
      MediaFilesStep(ab);
      MediaFilesStep(a);
      var head := if KindOf(a[0]) in MediaKinds && Truthy(UrlOf(a[0])) then [MediaOf(a[0])] else [];
      ConcatAssoc(head, MediaFiles(a[1..]), MediaFiles(b));
    }
  }

  /** `MediaFiles` on a non-empty list: the head's contribution, then the rest. */
  lemma MediaFilesStep(comps: seq<Json>)
    requires comps != [] && forall i :: 0 <= i < |comps| ==> Listen.Handled(comps[i])
    ensures MediaFiles(comps) == (if KindOf(comps[0]) in MediaKinds && Truthy(UrlOf(comps[0])) then [MediaOf(comps[0])] else []) + MediaFiles(comps[1..])
  {
  }

  /** One component is collected exactly when it is an image, video or
      voice component with a truthy url. */
  lemma MediaFilesOne(c: Json)
    requires Listen.Handled(c)
    ensures MediaFiles([c]) == if KindOf(c) in MediaKinds && Truthy(UrlOf(c)) then [MediaOf(c)] else []
  {
    assert [c][1..] == [];
  }

  /** The strings among the values, if all of them are strings. */
  function Strings(values: seq<Json>): (r: Option<seq<string>>)
    ensures r.Some? <==> forall k :: 0 <= k < |values| ==> values[k].Str?
    ensures r.Some? ==> |r.value| == |values| && forall k :: 0 <= k < |values| ==> r.value[k] == values[k].sval
  {
    if values == [] then Some([])
    else
      match Strings(values[1..])
      case None => None
      case Some(rest) => if values[0].Str? then Some([values[0].sval] + rest) else None
  }

  /** `"\n".join(text_parts)`: a text that is not a string makes the join
      raise `TypeError`. */
  function JoinLines(values: seq<Json>): (r: Result<string>)
    ensures r.Ok? <==> forall k :: 0 <= k < |values| ==> values[k].Str?
    ensures r.Ok? ==> r.value == Join("\n", Strings(values).value)
  {
    match Strings(values)
    case None => Raise("TypeError: sequence item: expected str instance")
    case Some(parts) => Ok(Join("\n", parts))
  }

  /** `process_ordinary_message`: nothing without a `message` key;
      otherwise the filtered components, their joined text and their media,
      not yet processed and not a forward. */
  function ProcessOrdinaryMessage(messageData: map<string, Json>): (r: Result<Option<CacheEntry>>)
    ensures "message" !in messageData ==> r == Ok(None)
    ensures "message" in messageData ==>
              (r.Ok? <==> Listen.ParseMessageComponents(messageData["message"]).Ok?
                          && var comps := Listen.ParseMessageComponents(messageData["message"]).value;
                             JoinLines(TextValues(comps)).Ok?)
    ensures r.Ok? && r.value.Some? ==>
              && var e := r.value.value;
                 && !e.processed && !e.isForward
                 && e.components == Listen.ParseMessageComponents(messageData["message"]).value
                 && e.text == JoinLines(TextValues(e.components)).value
                 && e.media == MediaFiles(e.components)
  {
    if "message" !in messageData then Ok(None)
    else
      var comps :- Listen.ParseMessageComponents(messageData["message"]);
      var text :- JoinLines(TextValues(comps));
      Ok(Some(CacheEntry(comps, text, MediaFiles(comps), false, false)))
  }

  /** No voice message reaches the media list: the filter already dropped
      every `record` component, so only images and videos are collected. */
  lemma {:induction false} NoVoiceMedia(comps: seq<Json>)
    requires forall i :: 0 <= i < |comps| ==> Listen.Handled(comps[i]) && Listen.Kept(comps[i])
    ensures forall k :: 0 <= k < |MediaFiles(comps)| ==> MediaFiles(comps)[k].kind in {"image", "video"}
  {
    if comps != [] {
      NoVoiceMedia(comps[1..]);
      var t := GetOr(comps[0].fields, "type", Str("unknown"));
      assert |Lower("unknown")| == 7;
      assert "type" in comps[0].fields;
      assert KindOf(comps[0]) == Lower(t.sval);
    }
  }

  /** The joined text is empty exactly when no component has text. */
  lemma {:induction false} JoinedTextEmpty(parts: seq<string>)
    requires forall k :: 0 <= k < |parts| ==> parts[k] != ""
    ensures Join("\n", parts) == "" <==> parts == []
  {
    if |parts| > 1 {
      assert |Join("\n", parts)| >= |parts[0]|;
    }
  }

  /** Texts without line breaks come back from the joined text by
      splitting at line breaks. */
  lemma TextLinesRoundTrip(parts: seq<string>)
    requires |parts| >= 1
    requires forall k :: 0 <= k < |parts| ==> '\n' !in parts[k]
    ensures Split(Join("\n", parts), '\n') == parts
  {
    SplitJoinRoundTrip(parts, '\n');
  }

  // ---------------------------------------------------------------------
  // Downloading and sending
  // ---------------------------------------------------------------------

  /** What `download_and_forward_ordinary_message` asks the sender for. */
  datatype SendCall =
    | NoSend
    | Combined(text: string, images: seq<string>, video: string)
    | TextOnly(text: string)

  /** The downloaded paths of the images, in order, skipping failures. */
  function ImagePaths(media: seq<Media>, results: seq<string>): (r: seq<string>)
    requires |results| == |media|
    ensures |r| <= |media|
    ensures forall k :: 0 <= k < |r| ==> r[k] != "" && r[k] in results
    ensures forall i :: 0 <= i < |media| && media[i].kind == "image" && results[i] != "" ==> results[i] in r
  {
    if media == [] then []
    else
      var rest := ImagePaths(media[1..], results[1..]);
      assert forall p :: p in results[1..] ==> p in results;
      assert forall i :: 1 <= i < |media| ==> media[1..][i - 1] == media[i] && results[1..][i - 1] == results[i];
      (if media[0].kind == "image" && results[0] != "" then [results[0]] else []) + rest
  }

  /** Without a single download there is no image to send. */
  lemma {:induction false} NoDownloadsNoImages(media: seq<Media>, results: seq<string>)
    requires |results| == |media|
    requires forall i :: 0 <= i < |results| ==> results[i] == ""
    ensures ImagePaths(media, results) == []
  {
    if media != [] {
      NoDownloadsNoImages(media[1..], results[1..]);
    }
  }

  /** The images of `a + b` are those of `a` followed by those of `b`: the
      chain keeps the media order and every downloaded image. */
  lemma {:induction false} ImagePathsAppend(a: seq<Media>, ra: seq<string>, b: seq<Media>, rb: seq<string>)
    requires |ra| == |a| && |rb| == |b|
    ensures ImagePaths(a + b, ra + rb) == ImagePaths(a, ra) + ImagePaths(b, rb)
  {
    if a == [] {
      assert a + b == b && ra + rb == rb;
      assert ImagePaths(a, ra) == [];
    } else {
      var m, r := a + b, ra + rb;
      assert m[0] == a[0] && r[0] == ra[0];
      assert m[1..] == a[1..] + b && r[1..] == ra[1..] + rb;
      ImagePathsAppend(a[1..], ra[1..], b, rb);
      ImagePathsStep(m, r);
      ImagePathsStep(a, ra);
      var head := if a[0].kind == "image" && ra[0] != "" then [ra[0]] else [];
      var x, y := ImagePaths(a[1..], ra[1..]), ImagePaths(b, rb);
      ConcatAssoc(head, x, y);
    }
  }

  /** `ImagePaths` on a non-empty list: the head's contribution, then the rest. */
  lemma ImagePathsStep(media: seq<Media>, results: seq<string>)
    requires |results| == |media| && media != []
    ensures ImagePaths(media, results) ==
              (if media[0].kind == "image" && results[0] != "" then [results[0]] else []) + ImagePaths(media[1..], results[1..])
  {
  }

  /** One media item adds its path exactly when it is an image that
      downloaded; a video's path never enters the image list. */
  lemma ImagePathsOne(m: Media, result: string)
    ensures ImagePaths([m], [result]) == if m.kind == "image" && result != "" then [result] else []
  {
    assert [m][1..] == [] && [result][1..] == [];
  }

  /** The position of the first video that downloaded, if any. */
  function FirstVideo(media: seq<Media>, results: seq<string>): (r: Option<nat>)
    requires |results| == |media|
    ensures r.Some? ==> r.value < |media| && media[r.value].kind == "video" && results[r.value] != ""
    ensures r.Some? ==> forall j :: 0 <= j < r.value ==> !(media[j].kind == "video" && results[j] != "")
    ensures r.None? ==> forall j :: 0 <= j < |media| ==> !(media[j].kind == "video" && results[j] != "")
  {
    if media == [] then None
    else if media[0].kind == "video" && results[0] != "" then Some(0)
    else
      match FirstVideo(media[1..], results[1..])
      case None => None
      case Some(k) => Some(k + 1)
  }

  /** The sender call for a message's text and downloads: with a video the
      combined send of text, images and video; else with images the
      combined send of text and images; else the text alone. */
  function Choose(text: string, media: seq<Media>, results: seq<string>): (r: SendCall)
    requires |results| == |media|
    ensures r != NoSend
    ensures r.Combined? ==> r.text == text && r.images == ImagePaths(media, results)
    ensures r.Combined? && r.video != "" ==> FirstVideo(media, results).Some? && r.video == results[FirstVideo(media, results).value]
    ensures FirstVideo(media, results).Some? ==> r.Combined? && r.video == results[FirstVideo(media, results).value]
    ensures FirstVideo(media, results).None? && r.Combined? ==> r.video == ""
    ensures r.Combined? <==> FirstVideo(media, results).Some? || ImagePaths(media, results) != []
    ensures r.TextOnly? ==> r.text == text
  {
    var images := ImagePaths(media, results);
    match FirstVideo(media, results)
    case Some(v) => Combined(text, images, results[v])
    case None => if images != [] then Combined(text, images, "") else TextOnly(text)
  }

  /** Every media item's download, done once, in order. */
  function Downloads(media: seq<Media>, download: (nat, Media) -> string): (r: seq<string>)
    ensures |r| == |media|
  {
    seq(|media|, i requires 0 <= i < |media| => download(i, media[i]))
  }

  datatype Forwarded = Forwarded(call: SendCall, cache: map<int, CacheEntry>)

  /** `download_and_forward_ordinary_message`: nothing for an unknown id or
      a forward; otherwise the message is marked processed, and a sender
      call is made only when it has text or media. */
  function DownloadAndForward(cache: map<int, CacheEntry>, msgId: int, download: (nat, Media) -> string): (r: Forwarded)
    ensures msgId !in cache || cache[msgId].isForward ==> r == Forwarded(NoSend, cache)
    ensures msgId in cache && !cache[msgId].isForward ==>
              && r.cache == cache[msgId := cache[msgId].(processed := true)]
              && (r.call == NoSend <==> cache[msgId].text == "" && cache[msgId].media == [])
    ensures r.call != NoSend ==>
              r.call == Choose(cache[msgId].text, cache[msgId].media, Downloads(cache[msgId].media, download))
  {
    if msgId !in cache then Forwarded(NoSend, cache)
    else
      var e := cache[msgId];
      if e.isForward then Forwarded(NoSend, cache)
      else
        var done := cache[msgId := e.(processed := true)];
        if e.text != "" || e.media != [] then
          Forwarded(Choose(e.text, e.media, Downloads(e.media, download)), done)
        else Forwarded(NoSend, done)
  }

  /** The sender's side of a call, on the send ledger. */
  function Deliver(call: SendCall, ledger: Sender.Ledger, fs: Sender.FileSystem, md5: Sender.Bytes -> Sender.HexDigest,
                   groups: seq<int>, delivered: Sender.Send -> bool): (r: Sender.Outcome)
    ensures ledger <= r.ledger
    ensures call == NoSend ==> r.sends == [] && r.ledger == ledger
    ensures call.TextOnly? && call.text == "" ==> r == Sender.Outcome(false, [], ledger)
    ensures call.TextOnly? && call.text != "" ==>
              && r.ledger == ledger
              && |r.sends| == |groups|
              && (forall i :: 0 <= i < |groups| ==> r.sends[i] == Sender.Send(Sender.SessionId(groups[i]), [Sender.TextPart(call.text)]))
              && (r.success <==> Sender.AllDelivered(r.sends, delivered))
    ensures call.Combined? && call.images != [] && call.video == "" ==>
              && |r.sends| == |groups|
              && (forall i :: 0 <= i < |groups| ==> r.sends[i].session == Sender.SessionId(groups[i]))
              && (groups != [] ==> r.ledger == ledger + Sender.Digests(fs, md5, call.images))
              && (r.success <==> Sender.AllDelivered(r.sends, delivered))
  {
    match call
    case NoSend => Sender.Outcome(true, [], ledger)
    case Combined(text, images, video) => Sender.SendCombinedMessage(ledger, fs, md5, groups, text, images, video, delivered)
    case TextOnly(text) => Sender.SendTextMessage(ledger, groups, text, delivered)
  }

  /** A message with text and no media goes out as that text alone, one
      send per target group, and the send ledger is untouched. */
  lemma TextOnlyMessageReachesEveryGroup(cache: map<int, CacheEntry>, msgId: int, download: (nat, Media) -> string,
                                         ledger: Sender.Ledger, fs: Sender.FileSystem, md5: Sender.Bytes -> Sender.HexDigest,
                                         groups: seq<int>, delivered: Sender.Send -> bool)
    requires msgId in cache && !cache[msgId].isForward && cache[msgId].media == [] && cache[msgId].text != ""
    ensures var out := Deliver(DownloadAndForward(cache, msgId, download).call, ledger, fs, md5, groups, delivered);
            && out.ledger == ledger
            && |out.sends| == |groups|
            && (forall i :: 0 <= i < |groups| ==> out.sends[i] == Sender.Send(Sender.SessionId(groups[i]), [Sender.TextPart(cache[msgId].text)]))
            && (out.success <==> Sender.AllDelivered(out.sends, delivered))
  {
    var e := cache[msgId];
    var results := Downloads(e.media, download);
    assert results == [];
    assert ImagePaths(e.media, results) == [];
    assert FirstVideo(e.media, results).None?;
    assert DownloadAndForward(cache, msgId, download).call == TextOnly(e.text);
  }

  /** A message with text and one image that downloads to a file not sent
      before: the first group gets the text and the image in one chain,
      every later group gets the text alone (the image is a duplicate by
      then), and the image's digest is recorded. */
  lemma TextAndFreshImageDelivered(cache: map<int, CacheEntry>, msgId: int, download: (nat, Media) -> string,
                                   ledger: Sender.Ledger, fs: Sender.FileSystem, md5: Sender.Bytes -> Sender.HexDigest,
                                   groups: seq<int>, delivered: Sender.Send -> bool)
    requires msgId in cache && !cache[msgId].isForward && cache[msgId].text != ""
    requires |cache[msgId].media| == 1 && cache[msgId].media[0].kind == "image"
    requires var p := download(0, cache[msgId].media[0]); p != "" && p in fs && md5(fs[p]) !in ledger
    requires groups != []
    ensures var p := download(0, cache[msgId].media[0]);
            var out := Deliver(DownloadAndForward(cache, msgId, download).call, ledger, fs, md5, groups, delivered);
            && |out.sends| == |groups|
            && out.sends[0] == Sender.Send(Sender.SessionId(groups[0]), [Sender.TextPart(cache[msgId].text), Sender.ImagePart(p)])
            && (forall i :: 1 <= i < |groups| ==> out.sends[i] == Sender.Send(Sender.SessionId(groups[i]), [Sender.TextPart(cache[msgId].text)]))
            && out.ledger == ledger + {md5(fs[p])}
  {
    var e := cache[msgId];
    var m := e.media[0];
    var p := download(0, m);
    assert Downloads(e.media, download) == [p];
    ImagePathsOne(m, p);
    assert e.media == [m];
    var call := DownloadAndForward(cache, msgId, download).call;
    assert call == Combined(e.text, [p], "");
    Sender.FreshImageReachesFirstGroupOnly(ledger, fs, md5, groups, p, e.text, delivered);
  }

  /** When every download fails, a message with text goes out as text
      alone, and one without text sends nothing at all, though it is marked
      processed. */
  lemma FailedDownloadsLeaveText(cache: map<int, CacheEntry>, msgId: int, download: (nat, Media) -> string,
                                 ledger: Sender.Ledger, fs: Sender.FileSystem, md5: Sender.Bytes -> Sender.HexDigest,
                                 groups: seq<int>, delivered: Sender.Send -> bool)
    requires msgId in cache && !cache[msgId].isForward && cache[msgId].media != []
    requires forall i :: 0 <= i < |cache[msgId].media| ==> download(i, cache[msgId].media[i]) == ""
    ensures var r := DownloadAndForward(cache, msgId, download);
            && r.call == TextOnly(cache[msgId].text)
            && r.cache[msgId].processed
            && (cache[msgId].text == "" ==> Deliver(r.call, ledger, fs, md5, groups, delivered).sends == [])
  {
    var e := cache[msgId];
    var results := Downloads(e.media, download);
    NoDownloadsNoImages(e.media, results);
  }

  // ---------------------------------------------------------------------
  // Forward bundles
  // ---------------------------------------------------------------------

  /** One `forward_group_single_msg` call. */
  datatype Relay = Relay(messageId: int, group: int)

  datatype Relayed = Relayed(config: LocalCache.Config, relays: seq<Relay>)

  /** `process_forward_message`: a bundle whose fingerprint is already
      recorded is skipped entirely; otherwise it is recorded first and then
      relayed to each target group in turn. */
  function ProcessForwardMessage(config: LocalCache.Config, msgId: int, data: map<string, Json>, targets: seq<int>): (r: Relayed)
    ensures LocalCache.IsDuplicateForward(config, data) ==> r == Relayed(config, [])
    ensures !LocalCache.IsDuplicateForward(config, data) ==>
              && r.config == LocalCache.AddCache(config, msgId, data).config
              && |r.relays| == |targets|
              && forall i :: 0 <= i < |targets| ==> r.relays[i] == Relay(msgId, targets[i])
  {
    if LocalCache.IsDuplicateForward(config, data) then Relayed(config, [])
    else
      Relayed(LocalCache.AddCache(config, msgId, data).config, seq(|targets|, i requires 0 <= i < |targets| => Relay(msgId, targets[i])))
  }

  /** The anti-duplicate promise end to end: a bundle with a complete
      fingerprint is relayed the first time it is seen, and when the same
      bundle arrives again under any id nothing is relayed and the registry
      stays as it is. */
  lemma SecondArrivalSkipped(config: LocalCache.Config, msgId: int, otherId: int, data: map<string, Json>, targets: seq<int>)
    requires |data| > 0 && LocalCache.ExtractContentInfo(data).Ok?
    requires LocalCache.ExtractContentInfo(data).value.title != "" && LocalCache.ExtractContentInfo(data).value.button != ""
    requires !LocalCache.IsDuplicateForward(config, data)
    ensures var first := ProcessForwardMessage(config, msgId, data, targets);
            && |first.relays| == |targets|
            && ProcessForwardMessage(first.config, otherId, data, targets) == Relayed(first.config, [])
  {
    LocalCache.RecordedIsDuplicate(config, msgId, otherId, data);
  }
}
