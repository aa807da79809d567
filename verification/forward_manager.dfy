/** `ForwardManager`: turning a (possibly nested) forward bundle into the
    node tree the bot API accepts, following nested forwards at most three
    levels deep. The API call that fetches a forward bundle is a parameter. */
module ForwardManager {

  import opened Text
  import opened Py

  /** Nesting levels followed before a forward is cut off. */
  const MaxDepth: nat := 3

  /** The text node that replaces anything nested too deeply: "[嵌套层数过多]". */
  const TooDeepText: string := "[\U{5D4C}\U{5957}\U{5C42}\U{6570}\U{8FC7}\U{591A}]"

  /** The title prefix of a rebuilt forward node: "嵌套转发层数: ". */
  const TitlePrefix: string := "\U{5D4C}\U{5957}\U{8F6C}\U{53D1}\U{5C42}\U{6570}: "

  /** The display nodes `build_nested_nodes` produces: a `text` node, a
      `node` built from one message, or a `forward` node with children. */
  datatype Node =
    | TextNode(text: string)
    | BaseNode(uin: string, content: Json, time: Json, nick: Json)
    | ForwardNode(nodes: seq<Node>, title: string)

  /** The bot API's `get_forward_msg`: the response for a message id, or a
      failed call. */
  type Fetch = Json -> Result<Json>

  /** `get_forward_msg`: a falsy id (`None`, `0`, `""`) is replaced by the
      id of the message that triggered the event. */
  function GetForwardMsg(fetch: Fetch, messageId: Json, eventMessageId: Json): (r: Result<Json>)
    ensures Truthy(messageId) ==> r == fetch(messageId)
    ensures !Truthy(messageId) ==> r == fetch(eventMessageId)
  {
    fetch(if Truthy(messageId) then messageId else eventMessageId)
  }

  /** Id 0 is falsy, so asking for forward 0 fetches the event's own message. */
  lemma ZeroIdFallsBack(fetch: Fetch, eventMessageId: Json)
    ensures GetForwardMsg(fetch, Int(0), eventMessageId) == fetch(eventMessageId)
    ensures GetForwardMsg(fetch, Str(""), eventMessageId) == fetch(eventMessageId)
  {
  }

  /** The title of a forward node rebuilt at `depth`: the prefix and the
      one-based level. */
  function Title(depth: nat): (r: string)
    ensures StartsWith(r, TitlePrefix)
    ensures IsDigits(r[|TitlePrefix|..]) && DecimalValue(r[|TitlePrefix|..]) == depth + 1
  {
    NatToStringRoundTrip(depth + 1);
    assert (TitlePrefix + NatToString(depth + 1))[|TitlePrefix|..] == NatToString(depth + 1);
    TitlePrefix + NatToString(depth + 1)
  }

  /** Different levels get different titles. */
  lemma TitlesDistinct(d: nat, e: nat)
    requires d != e
    ensures Title(d) != Title(e)
  {
  }

  /** `build_base_node`: the four fields of a plain message, each a lookup
      that raises `KeyError` when missing. */
  function BuildBaseNode(msg: Json): (r: Result<Node>)
    ensures r.Ok? <==>
              && msg.Obj?
              && "user_id" in msg.fields && "raw_message" in msg.fields && "time" in msg.fields
              && "sender" in msg.fields && msg.fields["sender"].Obj? && "nickname" in msg.fields["sender"].fields
    ensures r.Ok? ==>
              && r.value.BaseNode?
              && r.value.uin == ScalarToString(msg.fields["user_id"])
              && r.value.content == msg.fields["raw_message"]
              && r.value.time == msg.fields["time"]
              && r.value.nick == msg.fields["sender"].fields["nickname"]
  {
    var userId :- Index(msg, "user_id");
    var raw :- Index(msg, "raw_message");
    var time :- Index(msg, "time");
    var sender :- Index(msg, "sender");
    var nick :- Index(sender, "nickname");
    Ok(BaseNode(ScalarToString(userId), raw, time, nick))
  }

  /** `msg_data["messages"][0]`: the first element of a non-empty list.
      Indexing a non-empty string gives a one-character string, on which the
      following `["type"]` raises anyway, so every non-list raises here. */
  function FirstMessage(msg: Json): (r: Result<Json>)
    ensures r.Ok? <==> msg.Obj? && "messages" in msg.fields && msg.fields["messages"].Arr? && |msg.fields["messages"].elems| > 0
    ensures r.Ok? ==> r.value == msg.fields["messages"].elems[0]
  {
    var messages :- Index(msg, "messages");
    if messages.Arr? && |messages.elems| > 0 then Ok(messages.elems[0]) else Raise("IndexError: list index out of range")
  }

  /** The values `for child_msg in res["messages"]` visits. A string yields
      its characters. A dict yields its keys; their order is not modelled,
      and need not be: every key is a string, and a string child either
      lies past the depth cap (and is replaced by the cut-off node) or
      raises on `["messages"]`, whatever its text. */
  function Iteration(v: Json): (r: Result<seq<Json>>)
    ensures v.Arr? ==> r == Ok(v.elems)
    ensures r.Ok? <==> v.Arr? || v.Str? || v.Obj?
    ensures r.Ok? && !v.Arr? ==> forall i :: 0 <= i < |r.value| ==> r.value[i].Str?
  {
    match v
    case Arr(a) => Ok(a)
    case Str(s) => Ok(seq(|s|, i requires 0 <= i < |s| => Str([s[i]])))
    case Obj(m) => Ok(seq(|m|, i => Str("")))
    case _ => Raise("TypeError: object is not iterable")
  }

  /** Levels left before the cut-off. */
  function Budget(depth: nat): nat {
    if depth >= MaxDepth then 0 else MaxDepth - depth
  }

  /** The shape every successful result has: a cut-off text node exactly
      at and beyond the cap, and below it base nodes and forward nodes
      titled with their level whose children have the shape one level down. */
  predicate Shaped(n: Node, depth: nat) {
    match n
    case TextNode(t) => depth >= MaxDepth && t == TooDeepText
    case BaseNode(_, _, _, _) => depth < MaxDepth
    case ForwardNode(nodes, title) =>
      && depth < MaxDepth
      && title == Title(depth)
      && forall i :: 0 <= i < |nodes| ==> Shaped(nodes[i], depth + 1)
  }

  /** Forward nodes nest at most `k` deep in `n`. */
  predicate NestedAtMost(n: Node, k: nat) {
    match n
    case ForwardNode(nodes, _) => k > 0 && forall i :: 0 <= i < |nodes| ==> NestedAtMost(nodes[i], k - 1)
    case _ => true
  }

  /** `build_nested_nodes`: at or past the cap the cut-off node, without
      fetching; a message whose first component is a forward becomes a
      forward node over the fetched bundle, one level down; anything else
      becomes a base node. */
  function BuildNestedNodes(fetch: Fetch, eventMessageId: Json, msg: Json, depth: nat): (r: Result<Node>)
    ensures depth >= MaxDepth ==> r == Ok(TextNode(TooDeepText))
    ensures r.Ok? ==> Shaped(r.value, depth)
    ensures depth < MaxDepth && r.Ok? ==> FirstMessage(msg).Ok? && FirstMessage(msg).value.Obj? && "type" in FirstMessage(msg).value.fields
    ensures depth < MaxDepth && FirstMessage(msg).Ok? && Index(FirstMessage(msg).value, "type") != Ok(Str("forward")) ==>
              (r.Ok? <==> FirstMessage(msg).value.Obj? && "type" in FirstMessage(msg).value.fields && BuildBaseNode(msg).Ok?)
              && (r.Ok? ==> r == BuildBaseNode(msg))
    decreases Budget(depth), 0
  {
    if depth >= MaxDepth then Ok(TextNode(TooDeepText))
    else
      var first :- FirstMessage(msg);
      var kind :- Index(first, "type");
      if kind == Str("forward") then
        var data :- Index(first, "data");
        var forwardId :- Index(data, "id");
        var res :- GetForwardMsg(fetch, forwardId, eventMessageId);
        var messages :- Index(res, "messages");
        var children :- Iteration(messages);
        var nodes :- BuildAll(fetch, eventMessageId, children, depth + 1);
        Ok(ForwardNode(nodes, Title(depth)))
      else
        BuildBaseNode(msg)
  }

  /** The loop over a fetched bundle: every child built one level down, in
      order; the first child that raises ends the loop. */
  function BuildAll(fetch: Fetch, eventMessageId: Json, msgs: seq<Json>, depth: nat): (r: Result<seq<Node>>)
    ensures r.Ok? <==> forall i :: 0 <= i < |msgs| ==> BuildNestedNodes(fetch, eventMessageId, msgs[i], depth).Ok?
    ensures r.Ok? ==>
              && |r.value| == |msgs|
              && forall i :: 0 <= i < |msgs| ==> Ok(r.value[i]) == BuildNestedNodes(fetch, eventMessageId, msgs[i], depth)
    ensures r.Ok? ==> forall i :: 0 <= i < |r.value| ==> Shaped(r.value[i], depth)
    decreases Budget(depth), |msgs| + 1
  {
    if msgs == [] then Ok([])
    else
      var head :- BuildNestedNodes(fetch, eventMessageId, msgs[0], depth);
      var tail :- BuildAll(fetch, eventMessageId, msgs[1..], depth);
      Ok([head] + tail)
  }

  /** A shaped tree nests forwards no deeper than the levels left, so the
      whole result of `build_nested_nodes` from level 0 is at most three
      forwards deep. */
  lemma {:induction false} ShapedIsBounded(n: Node, depth: nat)
    requires Shaped(n, depth)
    ensures NestedAtMost(n, Budget(depth))
    decreases n
  {
    match n
    case ForwardNode(nodes, _) =>
      forall i | 0 <= i < |nodes| ensures NestedAtMost(nodes[i], Budget(depth) - 1) {
        ShapedIsBounded(nodes[i], depth + 1);
      }
    case _ =>
  }

  /** The nesting bound for a successful build. */
  lemma NestingBounded(fetch: Fetch, eventMessageId: Json, msg: Json, depth: nat)
    requires BuildNestedNodes(fetch, eventMessageId, msg, depth).Ok?
    ensures NestedAtMost(BuildNestedNodes(fetch, eventMessageId, msg, depth).value, Budget(depth))
  {
    ShapedIsBounded(BuildNestedNodes(fetch, eventMessageId, msg, depth).value, depth);
  }

  /** A forward component is followed through the fetch: the result is a
      forward node titled with the level whose children are the fetched
      messages built one level down, in the fetched order and number. */
  lemma ForwardFollowed(fetch: Fetch, eventMessageId: Json, msg: Json, depth: nat, first: Json, msgs: seq<Json>)
    requires depth < MaxDepth
    requires FirstMessage(msg) == Ok(first)
    requires first.Obj? && "type" in first.fields && first.fields["type"] == Str("forward")
    requires "data" in first.fields && first.fields["data"].Obj? && "id" in first.fields["data"].fields
    requires var res := GetForwardMsg(fetch, first.fields["data"].fields["id"], eventMessageId);
             res.Ok? && res.value.Obj? && "messages" in res.value.fields && res.value.fields["messages"] == Arr(msgs)
    requires forall i :: 0 <= i < |msgs| ==> BuildNestedNodes(fetch, eventMessageId, msgs[i], depth + 1).Ok?
    ensures var r := BuildNestedNodes(fetch, eventMessageId, msg, depth);
            && r.Ok? && r.value.ForwardNode?
            && r.value.title == Title(depth)
            && |r.value.nodes| == |msgs|
            && forall i :: 0 <= i < |msgs| ==> Ok(r.value.nodes[i]) == BuildNestedNodes(fetch, eventMessageId, msgs[i], depth + 1)
  {
  }

  /** At the last level a forward's children are all cut off, whatever
      they contain: one cut-off node per fetched message. */
  lemma LastLevelCutsOff(fetch: Fetch, eventMessageId: Json, msg: Json, first: Json, msgs: seq<Json>)
    requires FirstMessage(msg) == Ok(first)
    requires first.Obj? && "type" in first.fields && first.fields["type"] == Str("forward")
    requires "data" in first.fields && first.fields["data"].Obj? && "id" in first.fields["data"].fields
    requires var res := GetForwardMsg(fetch, first.fields["data"].fields["id"], eventMessageId);
             res.Ok? && res.value.Obj? && "messages" in res.value.fields && res.value.fields["messages"] == Arr(msgs)
    ensures BuildNestedNodes(fetch, eventMessageId, msg, MaxDepth - 1)
            == Ok(ForwardNode(seq(|msgs|, i => TextNode(TooDeepText)), Title(MaxDepth - 1)))
  {
    var nodes := seq(|msgs|, i => TextNode(TooDeepText));
    assert forall i :: 0 <= i < |msgs| ==> BuildNestedNodes(fetch, eventMessageId, msgs[i], MaxDepth) == Ok(nodes[i]);
    ForwardFollowed(fetch, eventMessageId, msg, MaxDepth - 1, first, msgs);
    var r := BuildNestedNodes(fetch, eventMessageId, msg, MaxDepth - 1).value;
    assert r.nodes == nodes;
  }

  /** Only the first message decides: two messages whose first components
      agree and are forwards are rebuilt identically, whatever else they
      carry. */
  lemma OnlyFirstMessageDecides(fetch: Fetch, eventMessageId: Json, a: Json, b: Json, depth: nat)
    requires FirstMessage(a).Ok? && FirstMessage(a) == FirstMessage(b)
    requires Index(FirstMessage(a).value, "type") == Ok(Str("forward"))
    ensures BuildNestedNodes(fetch, eventMessageId, a, depth) == BuildNestedNodes(fetch, eventMessageId, b, depth)
  {
  }

  /** A message without a non-empty `messages` list raises below the cap
      (`KeyError` or `IndexError`). */
  lemma EmptyBundleRaises(fetch: Fetch, eventMessageId: Json, msg: Json, depth: nat)
    requires depth < MaxDepth
    requires msg.Obj? && "messages" in msg.fields ==> msg.fields["messages"] == Arr([])
    ensures BuildNestedNodes(fetch, eventMessageId, msg, depth).Raise?
  {
  }
}
