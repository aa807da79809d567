/** The send side of `sender.py`: the ledger of content digests of files
    already sent, and the message chains each send function produces for
    the target groups. A send is recorded as the session id and the chain
    handed to the chat framework; whether the framework accepted it is an
    oracle. The MD5 computation is a parameter: a function from file
    contents to a 32-character hex digest. Pacing sleeps are not modelled. */
module Sender {

  import opened Text

  newtype byte = x: int | 0 <= x < 256

  type Bytes = seq<byte>

  predicate IsHexDigit(c: char) {
    ('0' <= c <= '9') || ('a' <= c <= 'f')
  }

  /** What `hexdigest()` returns: 32 lower-case hex characters, never empty. */
  type HexDigest = s: string | |s| == 32 && forall i :: 0 <= i < |s| ==> IsHexDigit(s[i])
    witness "00000000000000000000000000000000"

  /** The files on disk, by path. */
  type FileSystem = map<string, Bytes>

  /** The set of digests already sent (`sent_md5`). */
  type Ledger = set<string>

  const SessionPrefix := "aiocqhttp:GroupMessage:"

  /** `_get_session_id`. */
  function SessionId(group: int): (r: string)
    ensures StartsWith(r, SessionPrefix)
    ensures r[|SessionPrefix|..] == IntToString(group)
  {
    assert (SessionPrefix + IntToString(group))[..|SessionPrefix|] == SessionPrefix;
    SessionPrefix + IntToString(group)
  }

  /** Different groups get different sessions. */
  lemma SessionIdsDistinct(g: int, h: int)
    requires g != h
    ensures SessionId(g) != SessionId(h)
  {
    if SessionId(g) == SessionId(h) {
      assert IntToString(g) == IntToString(h);
      IntToStringInjective(g, h);
    }
  }

  lemma IntToStringInjective(g: int, h: int)
    requires IntToString(g) == IntToString(h)
    ensures g == h
  {
    var s := IntToString(g);
    if g >= 0 && h >= 0 {
      NatToStringRoundTrip(g);
      NatToStringRoundTrip(h);
    } else if g < 0 && h < 0 {
      assert s[1..] == NatToString(-g) == NatToString(-h);
      NatToStringRoundTrip(-g);
      NatToStringRoundTrip(-h);
    }
  }

  /** `_calc_md5`: "" for a missing file, the digest of its bytes otherwise
      (an empty file still has a digest). */
  function CalcMd5(fs: FileSystem, md5: Bytes -> HexDigest, path: string): (r: string)
    ensures r == "" <==> path !in fs
    ensures path in fs ==> r == md5(fs[path])
  {
    if path in fs then md5(fs[path]) else ""
  }

  datatype Check = Check(duplicate: bool, ledger: Ledger)

  /** `_is_duplicate`: a missing file is never a duplicate and is not
      recorded; a known digest is a duplicate; a new digest is recorded. */
  function IsDuplicate(ledger: Ledger, fs: FileSystem, md5: Bytes -> HexDigest, path: string): (r: Check)
    ensures ledger <= r.ledger
    ensures path !in fs ==> r == Check(false, ledger)
    ensures path in fs ==> r.ledger == ledger + {md5(fs[path])}
    ensures r.duplicate <==> path in fs && md5(fs[path]) in ledger
  {
    var digest := CalcMd5(fs, md5, path);
    if digest == "" then Check(false, ledger)
    else if digest in ledger then Check(true, ledger)
    else Check(false, ledger + {digest})
  }

  /** The same bytes seen twice, under any two paths: the second sight is a
      duplicate. Two different digests are both new and both recorded. */
  lemma SecondSightIsDuplicate(ledger: Ledger, fs: FileSystem, md5: Bytes -> HexDigest, p: string, q: string)
    requires p in fs && q in fs
    ensures fs[p] == fs[q] ==> IsDuplicate(IsDuplicate(ledger, fs, md5, p).ledger, fs, md5, q).duplicate
    ensures md5(fs[p]) != md5(fs[q]) && md5(fs[p]) !in ledger && md5(fs[q]) !in ledger ==>
              var first := IsDuplicate(ledger, fs, md5, p);
              var second := IsDuplicate(first.ledger, fs, md5, q);
              !first.duplicate && !second.duplicate && {md5(fs[p]), md5(fs[q])} <= second.ledger
  {
  }

  // ---------------------------------------------------------------------
  // Message chains and send plans
  // ---------------------------------------------------------------------

  datatype Part = TextPart(text: string) | ImagePart(path: string) | VideoPart(path: string)

  /** One call of `context.send_message(session_id, chain)`. */
  datatype Send = Send(session: string, chain: seq<Part>)

  /** The return value, the sends made, and the ledger afterwards. */
  datatype Outcome = Outcome(success: bool, sends: seq<Send>, ledger: Ledger)

  /** Every send was accepted by the chat framework. */
  predicate AllDelivered(sends: seq<Send>, delivered: Send -> bool) {
    forall i :: 0 <= i < |sends| ==> delivered(sends[i])
  }

  /** The same chain sent to each group, in order. */
  function Broadcast(groups: seq<int>, chain: seq<Part>): (r: seq<Send>)
    ensures |r| == |groups|
    ensures forall i :: 0 <= i < |groups| ==> r[i] == Send(SessionId(groups[i]), chain)
  {
    if groups == [] then [] else [Send(SessionId(groups[0]), chain)] + Broadcast(groups[1..], chain)
  }

  /** `send_text_message`: empty text sends nothing and fails; otherwise the
      text goes to every target group. */
  function SendTextMessage(ledger: Ledger, groups: seq<int>, text: string, delivered: Send -> bool): (r: Outcome)
    ensures r.ledger == ledger
    ensures text == "" ==> r == Outcome(false, [], ledger)
    ensures text != "" ==> |r.sends| == |groups|
    ensures text != "" ==> forall i :: 0 <= i < |groups| ==>
              r.sends[i] == Send(SessionId(groups[i]), [TextPart(text)])
    ensures text != "" ==> (r.success <==> AllDelivered(r.sends, delivered))
  {
    if text == "" then Outcome(false, [], ledger)
    else
      var sends := Broadcast(groups, [TextPart(text)]);
      Outcome(AllDelivered(sends, delivered), sends, ledger)
  }

  datatype Attached = Attached(parts: seq<Part>, ledger: Ledger)

  /** The inner loop of `send_image_message`: each image is checked against
      the ledger in turn and attached only when it is not a duplicate. */
  function AttachImages(ledger: Ledger, fs: FileSystem, md5: Bytes -> HexDigest, paths: seq<string>): (r: Attached)
    ensures r.ledger == ledger + Digests(fs, md5, paths)
    ensures |r.parts| <= |paths|
    ensures forall i :: 0 <= i < |r.parts| ==> r.parts[i].ImagePart? && r.parts[i].path in paths
    decreases |paths|
  {
    if paths == [] then Attached([], ledger)
    else
      var check := IsDuplicate(ledger, fs, md5, paths[0]);
      var rest := AttachImages(check.ledger, fs, md5, paths[1..]);
      var parts := if check.duplicate then rest.parts else [ImagePart(paths[0])] + rest.parts;
      Attached(parts, rest.ledger)
  }

  /** The images of `a + b` are those attached from `a`, then those
      attached from `b` against the ledger `a` left behind: a mixed list is
      handled path by path, in order. */
  lemma {:induction false} AttachImagesAppend(ledger: Ledger, fs: FileSystem, md5: Bytes -> HexDigest, a: seq<string>, b: seq<string>)
    ensures var first := AttachImages(ledger, fs, md5, a);
            var second := AttachImages(first.ledger, fs, md5, b);
            AttachImages(ledger, fs, md5, a + b) == Attached(first.parts + second.parts, second.ledger)
    decreases |a|
  {
    if a == [] {
      assert a + b == b;
      assert AttachImages(ledger, fs, md5, a).parts == [];
    } else {
      assert (a + b)[0] == a[0];
      assert (a + b)[1..] == a[1..] + b;
      var check := IsDuplicate(ledger, fs, md5, a[0]);
      AttachImagesAppend(check.ledger, fs, md5, a[1..], b);
      var rest := AttachImages(check.ledger, fs, md5, a[1..]);
      var second := AttachImages(rest.ledger, fs, md5, b);
      var head := if check.duplicate then [] else [ImagePart(a[0])];
      assert AttachImages(ledger, fs, md5, a).parts == head + rest.parts;
      ConcatAssoc(head, rest.parts, second.parts);
    }
  }

  /** A single image is attached exactly when its file is missing or its
      digest is not yet in the ledger. */
  lemma AttachImagesOne(ledger: Ledger, fs: FileSystem, md5: Bytes -> HexDigest, path: string)
    ensures AttachImages(ledger, fs, md5, [path]).parts ==
              if path in fs && md5(fs[path]) in ledger then [] else [ImagePart(path)]
  {
    assert [path][1..] == [];
  }

  /** The digests of the files that exist among `paths`. */
  function Digests(fs: FileSystem, md5: Bytes -> HexDigest, paths: seq<string>): set<string> {
    set i | 0 <= i < |paths| && paths[i] in fs :: md5(fs[paths[i]])
  }

  /** The images among `paths` whose file is missing, in order. */
  function MissingImages(fs: FileSystem, paths: seq<string>): (r: seq<Part>)
    ensures forall i :: 0 <= i < |r| ==> r[i].ImagePart? && r[i].path !in fs
  {
    if paths == [] then []
    else (if paths[0] in fs then [] else [ImagePart(paths[0])]) + MissingImages(fs, paths[1..])
  }

  /** Once every existing image's digest is in the ledger, only the images
      whose file is missing get attached, and the ledger stays put. */
  lemma {:induction false} KnownImagesSkipped(ledger: Ledger, fs: FileSystem, md5: Bytes -> HexDigest, paths: seq<string>)
    requires Digests(fs, md5, paths) <= ledger
    ensures AttachImages(ledger, fs, md5, paths) == Attached(MissingImages(fs, paths), ledger)
  {
    if paths != [] {
      assert Digests(fs, md5, paths[1..]) <= Digests(fs, md5, paths) by {
        forall d | d in Digests(fs, md5, paths[1..]) ensures d in Digests(fs, md5, paths) {
          var i :| 0 <= i < |paths[1..]| && paths[1..][i] in fs && d == md5(fs[paths[1..][i]]);
          assert paths[i + 1] == paths[1..][i];
        }
      }
      if paths[0] in fs {
        assert md5(fs[paths[0]]) in Digests(fs, md5, paths);
      }
      KnownImagesSkipped(ledger, fs, md5, paths[1..]);
    }
  }

  /** Images whose digests are all new and pairwise different are all attached. */
  lemma {:induction false} FreshImagesAttached(ledger: Ledger, fs: FileSystem, md5: Bytes -> HexDigest, paths: seq<string>)
    requires forall i :: 0 <= i < |paths| ==> paths[i] in fs && md5(fs[paths[i]]) !in ledger
    requires forall i, j :: 0 <= i < j < |paths| ==> md5(fs[paths[i]]) != md5(fs[paths[j]])
    ensures AttachImages(ledger, fs, md5, paths).parts == seq(|paths|, i requires 0 <= i < |paths| => ImagePart(paths[i]))
    decreases |paths|
  {
    if paths != [] {
      var d := md5(fs[paths[0]]);
      FreshImagesAttached(ledger + {d}, fs, md5, paths[1..]);
    }
  }

  /** The text part, when there is text. */
  function Caption(text: string): seq<Part> {
    if text != "" then [TextPart(text)] else []
  }

  /** One chain per group for `send_image_message`, threading the ledger
      from group to group. */
  function ImageRounds(ledger: Ledger, fs: FileSystem, md5: Bytes -> HexDigest, groups: seq<int>,
                       paths: seq<string>, text: string, delivered: Send -> bool): (r: Outcome)
    ensures |r.sends| == |groups|
    ensures forall i :: 0 <= i < |groups| ==> r.sends[i].session == SessionId(groups[i])
    ensures groups != [] ==> r.ledger == ledger + Digests(fs, md5, paths)
    ensures groups == [] ==> r.ledger == ledger
    ensures r.success <==> AllDelivered(r.sends, delivered)
    decreases |groups|
  {
    if groups == [] then Outcome(true, [], ledger)
    else
      var attached := AttachImages(ledger, fs, md5, paths);
      var chain := Caption(text) + attached.parts;
      var send := Send(SessionId(groups[0]), chain);
      var rest := ImageRounds(attached.ledger, fs, md5, groups[1..], paths, text, delivered);
      Outcome(delivered(send) && rest.success, [send] + rest.sends, rest.ledger)
  }

  /** `send_image_message`: an empty path list sends nothing and fails. */
  function SendImageMessage(ledger: Ledger, fs: FileSystem, md5: Bytes -> HexDigest, groups: seq<int>,
                            paths: seq<string>, text: string, delivered: Send -> bool): (r: Outcome)
    ensures paths == [] ==> r == Outcome(false, [], ledger)
    ensures paths != [] ==> |r.sends| == |groups| && (r.success <==> AllDelivered(r.sends, delivered))
    ensures ledger <= r.ledger
  {
    if paths == [] then Outcome(false, [], ledger)
    else ImageRounds(ledger, fs, md5, groups, paths, text, delivered)
  }

  /** One step of `ImageRounds`: the first group's chain, then the rounds
      for the remaining groups on the ledger that chain left behind. */
  lemma ImageRoundsStep(ledger: Ledger, fs: FileSystem, md5: Bytes -> HexDigest, groups: seq<int>,
                        paths: seq<string>, text: string, delivered: Send -> bool)
    requires groups != []
    ensures var attached := AttachImages(ledger, fs, md5, paths);
            var r := ImageRounds(ledger, fs, md5, groups, paths, text, delivered);
            var rest := ImageRounds(attached.ledger, fs, md5, groups[1..], paths, text, delivered);
            && r.sends[0].chain == Caption(text) + attached.parts
            && forall i :: 1 <= i < |groups| ==> r.sends[i] == rest.sends[i - 1]
  {
    var attached := AttachImages(ledger, fs, md5, paths);
    var chain := Caption(text) + attached.parts;
    var rest := ImageRounds(attached.ledger, fs, md5, groups[1..], paths, text, delivered);
    assert ImageRounds(ledger, fs, md5, groups, paths, text, delivered).sends == [Send(SessionId(groups[0]), chain)] + rest.sends;
  }

  /** A fresh image reaches the first target group only: every later group's
      chain carries the text and just the images whose file is missing. */
  lemma {:induction false} LaterGroupsGetOnlyMissingImages(ledger: Ledger, fs: FileSystem, md5: Bytes -> HexDigest,
                                         groups: seq<int>, paths: seq<string>, text: string, delivered: Send -> bool)
    requires paths != []
    ensures var r := SendImageMessage(ledger, fs, md5, groups, paths, text, delivered);
            forall i :: 1 <= i < |groups| ==> r.sends[i].chain == Caption(text) + MissingImages(fs, paths)
    ensures groups != [] ==>
              SendImageMessage(ledger, fs, md5, groups, paths, text, delivered).sends[0].chain
              == Caption(text) + AttachImages(ledger, fs, md5, paths).parts
  {
    if groups != [] {
      var attached := AttachImages(ledger, fs, md5, paths);
      ImageRoundsStep(ledger, fs, md5, groups, paths, text, delivered);
      KnownRounds(attached.ledger, fs, md5, groups[1..], paths, text, delivered);
    }
  }

  /** One image whose digest is new, sent with text: the first group's
      chain is the text and the image, each later group's chain is the text
      alone, and the digest is recorded. */
  lemma FreshImageReachesFirstGroupOnly(ledger: Ledger, fs: FileSystem, md5: Bytes -> HexDigest,
                                        groups: seq<int>, path: string, text: string, delivered: Send -> bool)
    requires path in fs && md5(fs[path]) !in ledger && text != "" && groups != []
    ensures var r := SendImageMessage(ledger, fs, md5, groups, [path], text, delivered);
            && |r.sends| == |groups|
            && r.sends[0] == Send(SessionId(groups[0]), [TextPart(text), ImagePart(path)])
            && (forall i :: 1 <= i < |groups| ==> r.sends[i] == Send(SessionId(groups[i]), [TextPart(text)]))
            && r.ledger == ledger + {md5(fs[path])}
  {
    var r := SendImageMessage(ledger, fs, md5, groups, [path], text, delivered);
    AttachImagesOne(ledger, fs, md5, path);
    LaterGroupsGetOnlyMissingImages(ledger, fs, md5, groups, [path], text, delivered);
    assert MissingImages(fs, [path]) == [] by {
      assert [path][1..] == [];
    }
    assert Caption(text) == [TextPart(text)];
    assert Digests(fs, md5, [path]) == {md5(fs[path])};
    forall i | 1 <= i < |groups|
      ensures r.sends[i] == Send(SessionId(groups[i]), [TextPart(text)])
    {
      assert r.sends[i].chain == [TextPart(text)] + [];
    }
    assert r.sends[0].chain == [TextPart(text)] + [ImagePart(path)];
  }

  /** Once the ledger holds every existing image's digest, every round
      carries the text and the missing images only. */
  lemma {:induction false} KnownRounds(ledger: Ledger, fs: FileSystem, md5: Bytes -> HexDigest,
                                       groups: seq<int>, paths: seq<string>, text: string, delivered: Send -> bool)
    requires Digests(fs, md5, paths) <= ledger
    ensures var r := ImageRounds(ledger, fs, md5, groups, paths, text, delivered);
            forall i :: 0 <= i < |groups| ==> r.sends[i].chain == Caption(text) + MissingImages(fs, paths)
    decreases |groups|
  {
    if groups != [] {
      KnownImagesSkipped(ledger, fs, md5, paths);
      ImageRoundsStep(ledger, fs, md5, groups, paths, text, delivered);
      KnownRounds(ledger, fs, md5, groups[1..], paths, text, delivered);
    }
  }

  /** `send_video_message`: no path fails; a duplicate video succeeds
      without sending anything; otherwise the video goes to every group. */
  function SendVideoMessage(ledger: Ledger, fs: FileSystem, md5: Bytes -> HexDigest, groups: seq<int>,
                            path: string, delivered: Send -> bool): (r: Outcome)
    ensures path == "" ==> r == Outcome(false, [], ledger)
    ensures path != "" && IsDuplicate(ledger, fs, md5, path).duplicate ==> r == Outcome(true, [], ledger)
    ensures path != "" && !IsDuplicate(ledger, fs, md5, path).duplicate ==>
              && r.sends == Broadcast(groups, [VideoPart(path)])
              && (r.success <==> AllDelivered(r.sends, delivered))
              && r.ledger == IsDuplicate(ledger, fs, md5, path).ledger
  {
    if path == "" then Outcome(false, [], ledger)
    else
      var check := IsDuplicate(ledger, fs, md5, path);
      if check.duplicate then Outcome(true, [], ledger)
      else
        var sends := Broadcast(groups, [VideoPart(path)]);
        Outcome(AllDelivered(sends, delivered), sends, check.ledger)
  }

  /** `send_combined_message`: the text and images go out together through
      `send_image_message`, then the video; the result is the conjunction. */
  function SendCombinedMessage(ledger: Ledger, fs: FileSystem, md5: Bytes -> HexDigest, groups: seq<int>,
                               text: string, images: seq<string>, video: string, delivered: Send -> bool): (r: Outcome)
    ensures ledger <= r.ledger
    ensures text == "" && images == [] && video == "" ==> r == Outcome(true, [], ledger)
    ensures images != [] && video == "" ==> r == SendImageMessage(ledger, fs, md5, groups, images, text, delivered)
    ensures text == "" && images == [] && video != "" ==> r == SendVideoMessage(ledger, fs, md5, groups, video, delivered)
    ensures images != [] && video != "" ==>
              var first := SendImageMessage(ledger, fs, md5, groups, images, text, delivered);
              var second := SendVideoMessage(first.ledger, fs, md5, groups, video, delivered);
              && r.sends == first.sends + second.sends
              && (r.success <==> first.success && second.success)
              && r.ledger == second.ledger
  {
    var first :=
      if text != "" || images != [] then SendImageMessage(ledger, fs, md5, groups, images, text, delivered)
      else Outcome(true, [], ledger);
    var second :=
      if video != "" then SendVideoMessage(first.ledger, fs, md5, groups, video, delivered)
      else Outcome(true, [], first.ledger);
    Outcome(first.success && second.success, first.sends + second.sends, second.ledger)
  }

  /** Text with no images is never sent by the combined send: the image
      send gives up on the empty list, so the result is a failure and only
      the video (if any) goes out. */
  lemma TextWithoutImagesIsDropped(ledger: Ledger, fs: FileSystem, md5: Bytes -> HexDigest, groups: seq<int>,
                                   text: string, video: string, delivered: Send -> bool)
    requires text != ""
    ensures var r := SendCombinedMessage(ledger, fs, md5, groups, text, [], video, delivered);
            && !r.success
            && r.sends == (if video == "" then [] else SendVideoMessage(ledger, fs, md5, groups, video, delivered).sends)
            && forall i, j :: 0 <= i < |r.sends| && 0 <= j < |r.sends[i].chain| ==> !r.sends[i].chain[j].TextPart?
  {
    var r := SendCombinedMessage(ledger, fs, md5, groups, text, [], video, delivered);
    assert r.sends == [] + (if video == "" then [] else SendVideoMessage(ledger, fs, md5, groups, video, delivered).sends);
  }
}
