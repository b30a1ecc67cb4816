/** Multipart uploads: one pass over the parts of a message that may restart itself as a
    stream or fall back to a buffered parser. */
module Upload {

  const MAX_VALUE := 10 * 1024

  /** A part: a form value, or a file (its file name is not empty); or a part that cannot be read. */
  datatype Item =
    | Value(form: string, text: string, readable: bool)
    | File(form: string, name: string, content: string)
    | Broken

  datatype Stored = Stored(channel: string, name: string, content: string, clientId: string)

  datatype Access = BadId | NoPermission | NoChannel | Restricted | Allowed

  /** What a channel identifier gives access to, which uploads the application refuses, and
      which messages the buffered parser can hold. */
  datatype Env = Env(access: string -> Access, refuses: Stored -> bool, fits: seq<Item> -> bool)
  {
    function Gate(channel: string): Access {
      if channel == "" then BadId else access(channel)
    }
  }

  datatype Error =
    | BadMessage
    | UnreadableValue(form: string)
    | ManyChannelIds
    | InvalidParam(name: string)
    | Denied(access: Access)
    | Refused
    | WrongIdCount(ids: nat, files: nat)

  datatype Response = Response(infos: seq<Stored>, clientIds: seq<string>)

  datatype Outcome = Accepted(response: Response) | Rejected(error: Error)

  /** The answer, and the files the application has stored by then. */
  datatype Report = Report(outcome: Outcome, stored: seq<Stored>)

  /** The variables of one pass. */
  datatype Pass = Pass(channel: string, ids: seq<string>, files: nat, expectIds: bool, response: Response)

  datatype Next = Go(pass: Pass) | Fail(error: Error) | Restart(channel: string) | FallBack

  function Start(channel: string): Pass {
    Pass(channel, [], 0, true, Response([], []))
  }

  /** Form values are read up to a limit. */
  function Capped(text: string): string {
    if |text| <= MAX_VALUE then text else text[..MAX_VALUE]
  }

  /** What is read of a value is its beginning, up to ten kibibytes. */
  lemma ReadUpToTheLimit(text: string)
    ensures Capped(text) <= text && |Capped(text)| == if |text| < 10240 then |text| else 10240
  {}

  // -------------------------------------------------------------------------
  // One part
  // -------------------------------------------------------------------------

  function Step(env: Env, pass: Pass, item: Item, streaming: bool): Next {
    match item
    case Broken => Fail(BadMessage)
    case Value(form, text, readable) =>
      if form == "" then Go(pass)
      else if !readable then Fail(UnreadableValue(form))
      else if form == "channel_id" then StepChannel(pass, Capped(text), streaming)
      else if form == "client_ids" then
        if !pass.expectIds then Fail(InvalidParam(form)) else Go(pass.(ids := pass.ids + [Capped(text)]))
      else Fail(InvalidParam(form))
    case File(form, name, content) =>
      if form == "" then Go(pass)
      else if pass.channel == "" && !streaming then FallBack
      else GatedFile(env, pass, name, content)
  }

  function GatedFile(env: Env, pass: Pass, name: string, content: string): Next {
    if env.Gate(pass.channel) != Allowed then Fail(Denied(env.Gate(pass.channel)))
    else StepFile(env, pass, name, content)
  }

  function StepChannel(pass: Pass, channel: string, streaming: bool): Next {
    if pass.channel != "" && pass.channel != channel then Fail(ManyChannelIds)
    else
      var now := if channel != "" then channel else pass.channel;
      if streaming then Go(pass.(channel := now)) else Restart(now)
  }

  function StepFile(env: Env, pass: Pass, name: string, content: string): Next {
    var expectIds := pass.expectIds && !(pass.files == 0 && pass.ids == []);
    if expectIds && pass.files >= |pass.ids| then Fail(InvalidParam("client_ids"))
    else
      var id := if expectIds then pass.ids[pass.files] else "";
      var info := Stored(pass.channel, name, content, id);
      if env.refuses(info) then Fail(Refused)
      else
        Go(pass.(expectIds := expectIds,
                 files := pass.files + 1,
                 response := Response(pass.response.infos + [info],
                                      pass.response.clientIds + if expectIds then [id] else [])))
  }

  function Finish(pass: Pass): Outcome {
    if pass.expectIds && |pass.ids| != pass.files then Rejected(WrongIdCount(|pass.ids|, pass.files))
    else Accepted(pass.response)
  }

  // -------------------------------------------------------------------------
  // Whole passes
  // -------------------------------------------------------------------------

  /** The streaming pass over what is left of the message. */
  function Stream(env: Env, items: seq<Item>, pass: Pass): Report {
    if items == [] then Report(Finish(pass), pass.response.infos)
    else
      match Step(env, pass, items[0], true)
      case Go(next) => Stream(env, items[1..], next)
      case Fail(error) => Report(Rejected(error), pass.response.infos)
      case _ => Report(Rejected(BadMessage), pass.response.infos)
  }

  /** The buffering pass: `items` is what is left of `all`. */
  function First(env: Env, all: seq<Item>, items: seq<Item>, pass: Pass): Report {
    if items == [] then Report(Finish(pass), pass.response.infos)
    else
      match Step(env, pass, items[0], false)
      case Go(next) => First(env, all, items[1..], next)
      case Fail(error) => Report(Rejected(error), pass.response.infos)
      case Restart(channel) => Before(pass, Stream(env, all, Start(channel)))
      case FallBack => Before(pass, Legacy(env, all))
  }

  /** What the first pass has stored already stays stored. */
  function Before(pass: Pass, report: Report): Report {
    report.(stored := pass.response.infos + report.stored)
  }

  /** All values of a form field, as `ReadForm` collects them. */
  function ValuesOf(items: seq<Item>, form: string): seq<string> {
    if items == [] then []
    else
      var last := items[|items| - 1];
      ValuesOf(items[..|items| - 1], form) + if last.Value? && last.form == form then [last.text] else []
  }

  function FilesOf(items: seq<Item>, form: string): (files: seq<Item>)
    ensures forall i :: 0 <= i < |files| ==> files[i].File?
  {
    if items == [] then []
    else
      var last := items[|items| - 1];
      FilesOf(items[..|items| - 1], form) + if last.File? && last.form == form then [last] else []
  }

  predicate Malformed(item: Item) {
    item.Broken? || (item.Value? && item.form != "" && !item.readable)
  }

  /** The buffered parser. */
  function Legacy(env: Env, items: seq<Item>): Report {
    if !env.fits(items) || (exists i :: 0 <= i < |items| && Malformed(items[i])) then Report(Rejected(BadMessage), [])
    else
      var channels, ids, files := ValuesOf(items, "channel_id"), ValuesOf(items, "client_ids"), FilesOf(items, "files");
      if channels == [] then Report(Rejected(InvalidParam("channel_id")), [])
      else if env.Gate(channels[0]) in {BadId, NoPermission} then Report(Rejected(Denied(env.Gate(channels[0]))), [])
      else if ids != [] && |ids| != |files| then Report(Rejected(WrongIdCount(|ids|, |files|)), [])
      else LegacyUploads(env, channels[0], ids, files, |files|)
  }

  /** The upload loop over the first `n` files; clients that gave no identifier get none back. */
  function LegacyUploads(env: Env, channel: string, ids: seq<string>, files: seq<Item>, n: nat): Report
    requires n <= |files| && (ids == [] || |ids| == |files|)
    requires forall i :: 0 <= i < |files| ==> files[i].File?
  {
    if n == 0 then Report(Accepted(Response([], [])), [])
    else
      var before := LegacyUploads(env, channel, ids, files, n - 1);
      if before.outcome.Rejected? then before
      else
        var id := if ids == [] then "" else ids[n - 1];
        var info := Stored(channel, files[n - 1].name, files[n - 1].content, id);
        if env.refuses(info) then Report(Rejected(Refused), before.stored)
        else
          var r := before.outcome.response;
          Report(Accepted(Response(r.infos + [info], r.clientIds + if id != "" then [id] else [])),
                 before.stored + [info])
  }

  // -------------------------------------------------------------------------
  // What a message says, read without running anything
  // -------------------------------------------------------------------------

  predicate IsFile(item: Item) {
    item.File? && item.form != ""
  }

  predicate IsId(item: Item) {
    item.Value? && item.form == "client_ids"
  }

  predicate IsChannel(item: Item) {
    item.Value? && item.form == "channel_id"
  }

  /** The client ids, in message order. */
  function Ids(items: seq<Item>): seq<string> {
    if items == [] then []
    else
      var last := items[|items| - 1];
      Ids(items[..|items| - 1]) + if IsId(last) then [Capped(last.text)] else []
  }

  /** The files, in message order. */
  function Files(items: seq<Item>): (files: seq<Item>)
    ensures forall i :: 0 <= i < |files| ==> IsFile(files[i])
  {
    if items == [] then []
    else
      var last := items[|items| - 1];
      Files(items[..|items| - 1]) + if IsFile(last) then [last] else []
  }

  /** The channel in force after these parts. */
  function Channel(items: seq<Item>, channel: string): string {
    if items == [] then channel
    else
      var last := items[|items| - 1];
      var sofar := Channel(items[..|items| - 1], channel);
      if IsChannel(last) && Capped(last.text) != "" then Capped(last.text) else sofar
  }

  /** The client id for a file that comes right after these parts. */
  function IdFor(items: seq<Item>): string {
    if |Files(items)| < |Ids(items)| then Ids(items)[|Files(items)|] else ""
  }

  /** The files as they are stored, if every one of them is. */
  function Uploads(items: seq<Item>, channel: string): seq<Stored> {
    if items == [] then []
    else
      var front, last := items[..|items| - 1], items[|items| - 1];
      Uploads(front, channel) +
      if IsFile(last) then [Stored(Channel(front, channel), last.name, last.content, IdFor(front))] else []
  }

  /** Nothing is wrong with the part itself that follows `front`. */
  predicate Sound(env: Env, front: seq<Item>, item: Item, channel: string) {
    && !Malformed(item)
    && (item.Value? ==> item.form in {"", "channel_id", "client_ids"})
    && (IsChannel(item) ==> Channel(front, channel) in {"", Capped(item.text)})
    && (IsFile(item) ==>
          && env.Gate(Channel(front, channel)) == Allowed
          && !env.refuses(Stored(Channel(front, channel), item.name, item.content, IdFor(front))))
  }

  /** Client ids and files alternate as the pass wants them up to here. */
  predicate Paired(front: seq<Item>, item: Item) {
    && (IsId(item) ==> Files(front) == [] || Ids(front) != [])
    && (IsFile(item) ==> Ids(front) == [] || |Files(front)| < |Ids(front)|)
  }

  predicate Fits(env: Env, items: seq<Item>, channel: string, n: nat)
    requires n < |items|
  {
    Sound(env, items[..n], items[n], channel) && Paired(items[..n], items[n])
  }

  ghost predicate AllFit(env: Env, items: seq<Item>, channel: string, n: nat)
    requires n <= |items|
  {
    forall k :: 0 <= k < n ==> Fits(env, items, channel, k)
  }

  // -------------------------------------------------------------------------
  // The state of a streaming pass, part by part
  // -------------------------------------------------------------------------

  /** The ids handed back so far. */
  function Echo(items: seq<Item>): seq<string> {
    if |Files(items)| <= |Ids(items)| then Ids(items)[..|Files(items)|] else []
  }

  function PassAfter(items: seq<Item>, channel: string): Pass {
    Pass(Channel(items, channel), Ids(items), |Files(items)|, Files(items) == [] || Ids(items) != [],
         Response(Uploads(items, channel), Echo(items)))
  }

  /** Files never outnumber ids once there are ids. */
  lemma {:induction false} FilesFollowIds(env: Env, items: seq<Item>, channel: string, n: nat)
    requires n <= |items| && AllFit(env, items, channel, n)
    ensures Ids(items[..n]) != [] ==> |Files(items[..n])| <= |Ids(items[..n])|
  {
    if n > 0 {
      FilesFollowIds(env, items, channel, n - 1);
      assert Fits(env, items, channel, n - 1);
      assert items[..n][..n - 1] == items[..n - 1];
    }
  }

  lemma Grown(front: seq<Item>, item: Item, channel: string)
    ensures var all := front + [item];
      && Ids(all) == Ids(front) + (if IsId(item) then [Capped(item.text)] else [])
      && Files(all) == Files(front) + (if IsFile(item) then [item] else [])
      && Channel(all, channel) ==
         (if IsChannel(item) && Capped(item.text) != "" then Capped(item.text) else Channel(front, channel))
      && Uploads(all, channel) == Uploads(front, channel) +
         (if IsFile(item) then [Stored(Channel(front, channel), item.name, item.content, IdFor(front))] else [])
  {
    assert (front + [item])[..|front|] == front;
  }

  /** What is reported about a part that does not fit. */
  function Fault(env: Env, front: seq<Item>, item: Item, channel: string): Error {
    match item
    case Broken => BadMessage
    case Value(form, _, readable) =>
      if !readable then UnreadableValue(form)
      else if IsChannel(item) then ManyChannelIds
      else InvalidParam(form)
    case File(_, _, _) =>
      if env.Gate(Channel(front, channel)) != Allowed then Denied(env.Gate(Channel(front, channel)))
      else if !Paired(front, item) then InvalidParam("client_ids")
      else Refused
  }

  /** One part takes the state after `front` to the state after it exactly if it fits; otherwise
      the pass fails with the fault of that part. */
  lemma StepFits(env: Env, front: seq<Item>, item: Item, channel: string)
    requires Ids(front) != [] ==> |Files(front)| <= |Ids(front)|
    ensures var next := Step(env, PassAfter(front, channel), item, true);
      if Sound(env, front, item, channel) && Paired(front, item)
      then next == Go(PassAfter(front + [item], channel))
      else next == Fail(Fault(env, front, item, channel))
  {
    hide Step, Sound, Paired, PassAfter, Fault;
    if item.File? {
      FileFits(env, front, item, channel);
    } else {
      ValueFits(env, front, item, channel);
    }
  }

  lemma ValueFits(env: Env, front: seq<Item>, item: Item, channel: string)
    requires !item.File? && (Ids(front) != [] ==> |Files(front)| <= |Ids(front)|)
    ensures var next := Step(env, PassAfter(front, channel), item, true);
      if Sound(env, front, item, channel) && Paired(front, item)
      then next == Go(PassAfter(front + [item], channel))
      else next == Fail(Fault(env, front, item, channel))
  {
    hide Ids, Files, Channel, Uploads, StepFile, GatedFile;
    Grown(front, item, channel);
  }

  lemma FileFits(env: Env, front: seq<Item>, item: Item, channel: string)
    requires item.File? && (Ids(front) != [] ==> |Files(front)| <= |Ids(front)|)
    ensures var next := Step(env, PassAfter(front, channel), item, true);
      if Sound(env, front, item, channel) && Paired(front, item)
      then next == Go(PassAfter(front + [item], channel))
      else next == Fail(Fault(env, front, item, channel))
  {
    hide Ids, Files, Channel, Uploads, StepChannel;
    Grown(front, item, channel);
  }

  lemma {:induction false} StreamPrefix(env: Env, items: seq<Item>, channel: string, n: nat)
    requires n <= |items| && AllFit(env, items, channel, n)
    ensures Stream(env, items, Start(channel)) == Stream(env, items[n..], PassAfter(items[..n], channel))
  {
    if n == 0 {
      assert items[..0] == [] && items[0..] == items;
    } else {
      StreamPrefix(env, items, channel, n - 1);
      FilesFollowIds(env, items, channel, n - 1);
      assert Fits(env, items, channel, n - 1);
      StepFits(env, items[..n - 1], items[n - 1], channel);
      assert items[..n] == items[..n - 1] + [items[n - 1]];
      assert items[n - 1..][1..] == items[n..];
    }
  }

  /** Where a streaming pass ends that meets a part that does not fit. */
  lemma StreamStops(env: Env, items: seq<Item>, channel: string, n: nat)
    requires n < |items| && AllFit(env, items, channel, n) && !Fits(env, items, channel, n)
    ensures var r := Stream(env, items, Start(channel));
      r == Report(Rejected(Fault(env, items[..n], items[n], channel)), Uploads(items[..n], channel))
  {
    hide Fault, Sound, Paired, Step, Ids, Files, Uploads, Channel;
    StreamPrefix(env, items, channel, n);
    FilesFollowIds(env, items, channel, n);
    StepFits(env, items[..n], items[n], channel);
  }

  lemma {:induction false} FirstMisfit(env: Env, items: seq<Item>, channel: string, n: nat) returns (k: nat)
    requires n <= |items| && !AllFit(env, items, channel, n)
    ensures k < n && AllFit(env, items, channel, k) && !Fits(env, items, channel, k)
  {
    if AllFit(env, items, channel, n - 1) {
      k := n - 1;
    } else {
      k := FirstMisfit(env, items, channel, n - 1);
    }
  }

  lemma StreamOutcome(env: Env, items: seq<Item>, channel: string)
    ensures var r := Stream(env, items, Start(channel));
      && (r.outcome.Accepted? <==>
            AllFit(env, items, channel, |items|) &&
            (Files(items) == [] || Ids(items) != [] ==> |Ids(items)| == |Files(items)|))
      && (r.outcome.Accepted? ==>
            r.outcome.response == Response(Uploads(items, channel), Echo(items)) && r.stored == Uploads(items, channel))
  {
    if AllFit(env, items, channel, |items|) {
      StreamPrefix(env, items, channel, |items|);
      assert items[..|items|] == items && items[|items|..] == [];
    } else {
      var k := FirstMisfit(env, items, channel, |items|);
      StreamStops(env, items, channel, k);
    }
  }

  // -------------------------------------------------------------------------
  // Which messages are accepted
  // -------------------------------------------------------------------------

  /** Either no client ids at all, or as many as files and strictly more of them than files
      before each file. */
  ghost predicate WellPaired(items: seq<Item>) {
    Ids(items) == [] ||
    (|Ids(items)| == |Files(items)| && IdsLead(items, |items|))
  }

  ghost predicate IdsLead(items: seq<Item>, n: nat)
    requires n <= |items|
  {
    forall k :: 0 <= k < n && IsFile(items[k]) ==> |Files(items[..k])| < |Ids(items[..k])|
  }

  ghost predicate AllPaired(items: seq<Item>, n: nat)
    requires n <= |items|
  {
    forall k :: 0 <= k < n ==> Paired(items[..k], items[k])
  }

  /** What one more part adds. */
  lemma OneMore(items: seq<Item>, channel: string, n: nat)
    requires n < |items|
    ensures Ids(items[..n + 1]) == Ids(items[..n]) + if IsId(items[n]) then [Capped(items[n].text)] else []
    ensures Files(items[..n + 1]) == Files(items[..n]) + if IsFile(items[n]) then [items[n]] else []
    ensures Uploads(items[..n + 1], channel) == Uploads(items[..n], channel) +
      if IsFile(items[n])
      then [Stored(Channel(items[..n], channel), items[n].name, items[n].content, IdFor(items[..n]))] else []
  {
    assert items[..n + 1] == items[..n] + [items[n]];
    Grown(items[..n], items[n], channel);
  }

  lemma {:induction false} PrefixIds(items: seq<Item>, j: nat, k: nat)
    requires j <= k <= |items|
    ensures Ids(items[..j]) <= Ids(items[..k])
  {
    if j < k {
      PrefixIds(items, j, k - 1);
      assert items[..k][..k - 1] == items[..k - 1];
    }
  }

  lemma {:induction false} NoFilesSoFar(items: seq<Item>, n: nat)
    requires n <= |items|
    ensures Files(items[..n]) == [] <==> forall k :: 0 <= k < n ==> !IsFile(items[k])
  {
    if n > 0 {
      NoFilesSoFar(items, n - 1);
      assert items[..n][..n - 1] == items[..n - 1];
    }
  }

  lemma {:induction false} PairedMeansLeading(items: seq<Item>, n: nat)
    requires n <= |items| && AllPaired(items, n)
    ensures Ids(items[..n]) != [] ==> IdsLead(items, n)
  {
    if n > 0 {
      hide Ids, Files, IdsLead, AllPaired, Paired;
      PairedFront(items, n - 1);
      PairedMeansLeading(items, n - 1);
      OneMore(items, "", n - 1);
      LeadsOneMore(items, n - 1);
    }
  }

  lemma PairedFront(items: seq<Item>, n: nat)
    requires n < |items| && AllPaired(items, n + 1)
    ensures AllPaired(items, n) && Paired(items[..n], items[n])
  {}

  lemma LeadsOneMore(items: seq<Item>, n: nat)
    requires n < |items| && Paired(items[..n], items[n])
    requires Ids(items[..n]) != [] ==> IdsLead(items, n)
    requires Ids(items[..n]) == [] && Ids(items[..n + 1]) != [] ==> IsId(items[n])
    ensures Ids(items[..n + 1]) != [] ==> IdsLead(items, n + 1)
  {
    hide Ids, Files;
    if Ids(items[..n]) == [] {
      NoFilesSoFar(items, n);
    }
  }

  lemma {:induction false} NoIdsSoFar(items: seq<Item>, n: nat)
    requires n <= |items| && Ids(items[..n]) == []
    ensures forall k :: 0 <= k < n ==> !IsId(items[k]) && Ids(items[..k]) == []
  {
    if n > 0 {
      assert items[..n][..n - 1] == items[..n - 1];
      NoIdsSoFar(items, n - 1);
    }
  }

  lemma LeadingMeansPaired(items: seq<Item>)
    requires WellPaired(items)
    ensures AllPaired(items, |items|)
  {
    assert items[..|items|] == items;
    if Ids(items) == [] {
      NoIdsSoFar(items, |items|);
    } else {
      forall k | 0 <= k < |items| ensures Paired(items[..k], items[k]) {
        NoFilesSoFar(items, k);
        if Files(items[..k]) != [] {
          var j :| 0 <= j < k && IsFile(items[j]);
          PrefixIds(items, j, k);
        }
      }
    }
  }

  ghost predicate AllSound(env: Env, items: seq<Item>, channel: string) {
    forall k :: 0 <= k < |items| ==> Sound(env, items[..k], items[k], channel)
  }

  /** A streaming pass accepts a message exactly when every part is sound and the client ids
      are paired with the files; it stores each file once, in message order, and answers with
      the files and all the ids. */
  lemma StreamAcceptsIff(env: Env, items: seq<Item>, channel: string)
    ensures var r := Stream(env, items, Start(channel));
      && (r.outcome.Accepted? <==> AllSound(env, items, channel) && WellPaired(items))
      && (r.outcome.Accepted? ==>
            r.outcome.response == Response(Uploads(items, channel), Ids(items)) && r.stored == Uploads(items, channel))
  {
    StreamOutcome(env, items, channel);
    assert items[..|items|] == items;
    if AllFit(env, items, channel, |items|) {
      forall k | 0 <= k < |items| ensures Paired(items[..k], items[k]) && Sound(env, items[..k], items[k], channel) {
        assert Fits(env, items, channel, k);
      }
      PairedMeansLeading(items, |items|);
    }
    if WellPaired(items) && AllSound(env, items, channel) {
      LeadingMeansPaired(items);
      forall k | 0 <= k < |items| ensures Fits(env, items, channel, k) {
        assert Paired(items[..k], items[k]) && Sound(env, items[..k], items[k], channel);
      }
    }
  }

  /** Every other message is rejected with the fault of its first part that does not fit, or, if
      all do, for the number of its client ids; what came before is stored all the same. */
  lemma StreamRejects(env: Env, items: seq<Item>, channel: string) returns (n: nat)
    requires Stream(env, items, Start(channel)).outcome.Rejected?
    ensures n <= |items| && AllFit(env, items, channel, n) && (n < |items| ==> !Fits(env, items, channel, n))
    ensures Stream(env, items, Start(channel)) ==
      Report(Rejected(if n < |items| then Fault(env, items[..n], items[n], channel)
                      else WrongIdCount(|Ids(items)|, |Files(items)|)),
             Uploads(items[..n], channel))
  {
    hide Fault, Fits, Step, Ids, Files, Uploads, Channel;
    if AllFit(env, items, channel, |items|) {
      n := |items|;
      StreamPrefix(env, items, channel, n);
      assert items[..n] == items && items[n..] == [];
    } else {
      n := FirstMisfit(env, items, channel, |items|);
      StreamStops(env, items, channel, n);
    }
  }

  /** The i-th stored file is the i-th file of the message, under the i-th client id. */
  lemma {:induction false} UploadsPair(items: seq<Item>, channel: string, n: nat, i: nat)
    requires n <= |items| && WellPaired(items) && i < |Files(items[..n])|
    ensures |Uploads(items[..n], channel)| == |Files(items[..n])|
    ensures var u, f := Uploads(items[..n], channel)[i], Files(items[..n])[i];
      && u.name == f.name && u.content == f.content
      && (Ids(items) == [] ==> u.clientId == "")
      && (Ids(items) != [] ==> i < |Ids(items)| && u.clientId == Ids(items)[i])
  {
    assert n > 0 && items[..|items|] == items;
    hide Ids, Files, Uploads, Channel, IdFor, WellPaired;
    OneMore(items, channel, n - 1);
    UploadsCount(items, channel, n - 1);
    if i < |Files(items[..n - 1])| {
      UploadsPair(items, channel, n - 1, i);
    } else {
      IdOfNextFile(items, n - 1);
    }
  }

  lemma IdOfNextFile(items: seq<Item>, n: nat)
    requires n < |items| && WellPaired(items) && IsFile(items[n])
    ensures Ids(items) == [] ==> IdFor(items[..n]) == ""
    ensures var i := |Files(items[..n])|;
      Ids(items) != [] ==> i < |Ids(items)| && IdFor(items[..n]) == Ids(items)[i]
  {
    hide Ids, Files;
    assert items[..|items|] == items;
    if Ids(items) == [] {
      NoIdsSoFar(items, |items|);
    } else {
      PrefixIds(items, n, |items|);
    }
  }

  lemma {:induction false} UploadsCount(items: seq<Item>, channel: string, n: nat)
    requires n <= |items|
    ensures |Uploads(items[..n], channel)| == |Files(items[..n])|
  {
    if n > 0 {
      UploadsCount(items, channel, n - 1);
      assert items[..n][..n - 1] == items[..n - 1];
    }
  }

  // -------------------------------------------------------------------------
  // Which messages the buffered parser accepts
  // -------------------------------------------------------------------------

  /** The part belongs to a form field, as a file or as a value. */
  predicate BelongsTo(item: Item, form: string, file: bool) {
    (if file then item.File? else item.Value?) && item.form == form
  }

  /** The places of the parts of a form field, in message order. */
  ghost predicate Places(items: seq<Item>, form: string, file: bool, at: seq<nat>) {
    && (forall i, j :: 0 <= i < j < |at| ==> at[i] < at[j])
    && (forall k :: k in at <==> 0 <= k < |items| && BelongsTo(items[k], form, file))
  }

  lemma PlacesOneMore(items: seq<Item>, form: string, file: bool, at: seq<nat>)
    requires items != [] && Places(items[..|items| - 1], form, file, at)
    ensures Places(items, form, file, if BelongsTo(items[|items| - 1], form, file) then at + [|items| - 1] else at)
  {
    var n: nat := |items| - 1;
    forall i | 0 <= i < |at| ensures at[i] < n {
      assert at[i] in at;
    }
    assert forall k :: 0 <= k < n ==> items[..n][k] == items[k];
    assert forall k :: k in at + [n] <==> k in at || k == n;
  }

  /** The values of a form field are the texts of its parts, in message order. */
  lemma {:induction false} ValuesInOrder(items: seq<Item>, form: string) returns (at: seq<nat>)
    ensures Places(items, form, false, at)
    ensures |ValuesOf(items, form)| == |at|
    ensures forall i :: 0 <= i < |at| ==>
      at[i] < |items| && items[at[i]].Value? && ValuesOf(items, form)[i] == items[at[i]].text
  {
    if items == [] {
      at := [];
    } else {
      var n: nat := |items| - 1;
      at := ValuesInOrder(items[..n], form);
      PlacesOneMore(items, form, false, at);
      assert ValuesOf(items, form) ==
        ValuesOf(items[..n], form) + if BelongsTo(items[n], form, false) then [items[n].text] else [];
      hide ValuesOf, Places;
      if BelongsTo(items[n], form, false) { at := at + [n]; }
    }
  }

  /** And the files of a form field are its file parts. */
  lemma {:induction false} FilesInOrder(items: seq<Item>, form: string) returns (at: seq<nat>)
    ensures Places(items, form, true, at)
    ensures |FilesOf(items, form)| == |at|
    ensures forall i :: 0 <= i < |at| ==> at[i] < |items| && FilesOf(items, form)[i] == items[at[i]]
  {
    if items == [] {
      at := [];
    } else {
      var n: nat := |items| - 1;
      at := FilesInOrder(items[..n], form);
      PlacesOneMore(items, form, true, at);
      assert FilesOf(items, form) ==
        FilesOf(items[..n], form) + if BelongsTo(items[n], form, true) then [items[n]] else [];
      hide FilesOf, Places;
      if BelongsTo(items[n], form, true) { at := at + [n]; }
    }
  }

  /** The i-th file as it is stored: under the i-th id, if there are any. */
  function InfoAt(channel: string, ids: seq<string>, files: seq<Item>, i: nat): Stored
    requires i < |files| && files[i].File? && (ids == [] || |ids| == |files|)
  {
    Stored(channel, files[i].name, files[i].content, if ids == [] then "" else ids[i])
  }

  ghost predicate NoneRefused(env: Env, channel: string, ids: seq<string>, files: seq<Item>, n: nat)
    requires n <= |files| && (ids == [] || |ids| == |files|)
    requires forall i :: 0 <= i < |files| ==> files[i].File?
  {
    forall i :: 0 <= i < n ==> !env.refuses(InfoAt(channel, ids, files, i))
  }

  /** What the buffered parser asks of a message: it can be held and read, it names a channel,
      the first one named is open to the sender, there is no client id or one for each file, and
      no file is refused. */
  ghost predicate LegacyTakes(env: Env, items: seq<Item>) {
    && env.fits(items) && (forall k :: 0 <= k < |items| ==> !Malformed(items[k]))
    && var channels := ValuesOf(items, "channel_id");
       var ids, files := ValuesOf(items, "client_ids"), FilesOf(items, "files");
       && channels != [] && env.Gate(channels[0]) !in {BadId, NoPermission}
       && (ids == [] || |ids| == |files|)
       && NoneRefused(env, channels[0], ids, files, |files|)
  }

  /** The identifiers that are not empty, in order. */
  function Given(ids: seq<string>): seq<string> {
    if ids == [] then []
    else Given(ids[..|ids| - 1]) + if ids[|ids| - 1] != "" then [ids[|ids| - 1]] else []
  }

  function FirstInfos(channel: string, ids: seq<string>, files: seq<Item>, n: nat): seq<Stored>
    requires n <= |files| && (ids == [] || |ids| == |files|)
    requires forall i :: 0 <= i < |files| ==> files[i].File?
  {
    seq(n, i requires 0 <= i < n => InfoAt(channel, ids, files, i))
  }

  lemma OneMoreInfo(channel: string, ids: seq<string>, files: seq<Item>, n: nat)
    requires n < |files| && (ids == [] || |ids| == |files|)
    requires forall i :: 0 <= i < |files| ==> files[i].File?
    ensures FirstInfos(channel, ids, files, n + 1) ==
      FirstInfos(channel, ids, files, n) + [InfoAt(channel, ids, files, n)]
    ensures InfoAt(channel, ids, files, n).clientId == if ids == [] then "" else ids[n]
  {}

  function GivenFirst(ids: seq<string>, n: nat): seq<string>
    requires ids == [] || n <= |ids|
  {
    if ids == [] then [] else Given(ids[..n])
  }

  lemma OneMoreGiven(ids: seq<string>, n: nat)
    requires ids == [] || n < |ids|
    ensures GivenFirst(ids, 0) == []
    ensures var id := if ids == [] then "" else ids[n];
      GivenFirst(ids, n + 1) == if id != "" then GivenFirst(ids, n) + [id] else GivenFirst(ids, n)
  {
    assert ids != [] ==> ids[..n + 1][..n] == ids[..n];
  }

  lemma LoopStep(env: Env, channel: string, ids: seq<string>, files: seq<Item>, n: nat, infos: seq<Stored>,
                 echoed: seq<string>)
    requires n < |files| && (ids == [] || |ids| == |files|)
    requires forall i :: 0 <= i < |files| ==> files[i].File?
    requires LegacyUploads(env, channel, ids, files, n) == Report(Accepted(Response(infos, echoed)), infos)
    requires !env.refuses(InfoAt(channel, ids, files, n))
    ensures var info := InfoAt(channel, ids, files, n);
      LegacyUploads(env, channel, ids, files, n + 1) ==
        Report(Accepted(Response(infos + [info], if info.clientId != "" then echoed + [info.clientId] else echoed)),
               infos + [info])
  {
    assert echoed + [] == echoed;
  }

  lemma LoopBegins(env: Env, channel: string, ids: seq<string>, files: seq<Item>)
    requires (ids == [] || |ids| == |files|) && forall i :: 0 <= i < |files| ==> files[i].File?
    ensures FirstInfos(channel, ids, files, 0) == [] && GivenFirst(ids, 0) == []
    ensures LegacyUploads(env, channel, ids, files, 0) == Report(Accepted(Response([], [])), [])
  {}

  lemma LoopFails(env: Env, channel: string, ids: seq<string>, files: seq<Item>, n: nat)
    requires n < |files| && (ids == [] || |ids| == |files|)
    requires forall i :: 0 <= i < |files| ==> files[i].File?
    ensures var before := LegacyUploads(env, channel, ids, files, n);
      && (before.outcome.Rejected? ==> LegacyUploads(env, channel, ids, files, n + 1) == before)
      && (before.outcome.Accepted? && env.refuses(InfoAt(channel, ids, files, n)) ==>
            LegacyUploads(env, channel, ids, files, n + 1) == Report(Rejected(Refused), before.stored))
  {}

  /** The upload loop goes on until a file is refused. */
  lemma {:induction false} LoopGoesOn(env: Env, channel: string, ids: seq<string>, files: seq<Item>, n: nat)
    requires n <= |files| && (ids == [] || |ids| == |files|)
    requires forall i :: 0 <= i < |files| ==> files[i].File?
    requires NoneRefused(env, channel, ids, files, n)
    ensures LegacyUploads(env, channel, ids, files, n) ==
      var infos := FirstInfos(channel, ids, files, n);
      Report(Accepted(Response(infos, GivenFirst(ids, n))), infos)
  {
    hide LegacyUploads, FirstInfos, GivenFirst, InfoAt;
    LoopBegins(env, channel, ids, files);
    if n > 0 {
      LoopGoesOn(env, channel, ids, files, n - 1);
      LoopStep(env, channel, ids, files, n - 1, FirstInfos(channel, ids, files, n - 1), GivenFirst(ids, n - 1));
      OneMoreInfo(channel, ids, files, n - 1);
      OneMoreGiven(ids, n - 1);
    }
  }

  /** At the first refused file it stops; the files before it are stored. */
  lemma {:induction false} LoopStops(env: Env, channel: string, ids: seq<string>, files: seq<Item>, n: nat)
    returns (k: nat)
    requires n <= |files| && (ids == [] || |ids| == |files|)
    requires forall i :: 0 <= i < |files| ==> files[i].File?
    requires !NoneRefused(env, channel, ids, files, n)
    ensures k < n && NoneRefused(env, channel, ids, files, k) && env.refuses(InfoAt(channel, ids, files, k))
    ensures LegacyUploads(env, channel, ids, files, n) ==
      Report(Rejected(Refused), FirstInfos(channel, ids, files, k))
  {
    hide LegacyUploads, FirstInfos, GivenFirst, InfoAt;
    LoopFails(env, channel, ids, files, n - 1);
    if NoneRefused(env, channel, ids, files, n - 1) {
      k := n - 1;
      LoopGoesOn(env, channel, ids, files, k);
    } else {
      k := LoopStops(env, channel, ids, files, n - 1);
    }
  }

  /** The buffered parser accepts just these messages; the i-th file it stores and answers with
      is then the i-th `files` part, in the first channel named, under the i-th client id if there
      are any, and it hands back the client ids that are not empty. */
  lemma LegacyAcceptsIff(env: Env, items: seq<Item>)
    ensures Legacy(env, items).outcome.Accepted? <==> LegacyTakes(env, items)
    ensures LegacyTakes(env, items) ==>
      var channel := ValuesOf(items, "channel_id")[0];
      var ids, files := ValuesOf(items, "client_ids"), FilesOf(items, "files");
      var infos := FirstInfos(channel, ids, files, |files|);
      Legacy(env, items) == Report(Accepted(Response(infos, Given(ids))), infos)
  {
    hide ValuesOf, FilesOf, LegacyUploads, Given, NoneRefused, FirstInfos;
    var channels, ids, files := ValuesOf(items, "channel_id"), ValuesOf(items, "client_ids"), FilesOf(items, "files");
    if channels != [] && (ids == [] || |ids| == |files|) {
      if NoneRefused(env, channels[0], ids, files, |files|) {
        LoopGoesOn(env, channels[0], ids, files, |files|);
        assert ids != [] ==> ids[..|files|] == ids;
        GivenOfNone();
      } else {
        var k := LoopStops(env, channels[0], ids, files, |files|);
      }
    }
  }

  lemma GivenOfNone()
    ensures Given([]) == []
  {}

  /** What a message that the buffered parser does not accept is told, and what is stored of it:
      nothing, unless it is a file that is refused. */
  lemma LegacyRejects(env: Env, items: seq<Item>)
    requires !LegacyTakes(env, items)
    ensures var r := Legacy(env, items);
      var channels, ids, files := ValuesOf(items, "channel_id"), ValuesOf(items, "client_ids"), FilesOf(items, "files");
      && r.outcome.Rejected?
      && (r.outcome.error == BadMessage <==>
            !env.fits(items) || exists k :: 0 <= k < |items| && Malformed(items[k]))
      && (r.outcome.error.InvalidParam? ==> r.outcome.error == InvalidParam("channel_id") && channels == [])
      && (r.outcome.error.Denied? ==> channels != [] && r.outcome.error.access == env.Gate(channels[0]))
      && (r.outcome.error.WrongIdCount? ==>
            r.outcome.error == WrongIdCount(|ids|, |files|) && 0 < |ids| != |files|)
      && (r.outcome.error != Refused ==> r.stored == [])
      && (r.outcome.error == Refused ==>
            && channels != [] && (ids == [] || |ids| == |files|)
            && StoredUpToRefusal(env, channels[0], ids, files, r.stored))
  {
    hide ValuesOf, FilesOf, LegacyUploads, NoneRefused, StoredUpToRefusal;
    var channels, ids, files := ValuesOf(items, "channel_id"), ValuesOf(items, "client_ids"), FilesOf(items, "files");
    if channels != [] && (ids == [] || |ids| == |files|) && !NoneRefused(env, channels[0], ids, files, |files|) {
      StopsAtRefusal(env, channels[0], ids, files);
    }
  }

  /** Some file is the first to be refused; the ones before it are stored. */
  ghost predicate StoredUpToRefusal(env: Env, channel: string, ids: seq<string>, files: seq<Item>, stored: seq<Stored>)
    requires (ids == [] || |ids| == |files|) && forall i :: 0 <= i < |files| ==> files[i].File?
  {
    exists k :: 0 <= k < |files|
      && NoneRefused(env, channel, ids, files, k) && env.refuses(InfoAt(channel, ids, files, k))
      && stored == FirstInfos(channel, ids, files, k)
  }

  lemma StopsAtRefusal(env: Env, channel: string, ids: seq<string>, files: seq<Item>)
    requires (ids == [] || |ids| == |files|) && forall i :: 0 <= i < |files| ==> files[i].File?
    requires !NoneRefused(env, channel, ids, files, |files|)
    ensures var r := LegacyUploads(env, channel, ids, files, |files|);
      r.outcome == Rejected(Refused) && StoredUpToRefusal(env, channel, ids, files, r.stored)
  {
    hide FirstInfos, NoneRefused, InfoAt;
    var k := LoopStops(env, channel, ids, files, |files|);
  }

  // -------------------------------------------------------------------------
  // The buffering pass
  // -------------------------------------------------------------------------

  /** What uploading a message does: the pass that starts with the channel of the query. */
  function Handle(env: Env, items: seq<Item>, preset: string): Report {
    First(env, items, items, Start(preset))
  }

  /** The buffering pass does not end within the first `n` parts. */
  ghost predicate Quiet(items: seq<Item>, preset: string, n: nat)
    requires n <= |items|
  {
    forall k :: 0 <= k < n ==> !IsChannel(items[k]) && (preset != "" || !IsFile(items[k]))
  }

  lemma {:induction false} QuietChannel(items: seq<Item>, preset: string, n: nat)
    requires n <= |items| && Quiet(items, preset, n)
    ensures Channel(items[..n], preset) == preset
  {
    if n > 0 {
      QuietChannel(items, preset, n - 1);
      assert items[..n][..n - 1] == items[..n - 1];
    }
  }

  /** Up to there it behaves like a streaming pass. */
  lemma {:induction false} FirstPrefix(env: Env, items: seq<Item>, preset: string, n: nat)
    requires n <= |items| && AllFit(env, items, preset, n) && Quiet(items, preset, n)
    ensures Handle(env, items, preset) == First(env, items, items[n..], PassAfter(items[..n], preset))
  {
    if n == 0 {
      assert items[..0] == [] && items[0..] == items;
    } else {
      FirstPrefix(env, items, preset, n - 1);
      FilesFollowIds(env, items, preset, n - 1);
      QuietChannel(items, preset, n - 1);
      assert Fits(env, items, preset, n - 1);
      StepFits(env, items[..n - 1], items[n - 1], preset);
      assert items[..n] == items[..n - 1] + [items[n - 1]];
      assert items[n - 1..][1..] == items[n..];
    }
  }

  /** The first part at which the buffering pass hands over, if it gets there. */
  function HandOver(items: seq<Item>, preset: string): (m: nat)
    ensures m <= |items| && Quiet(items, preset, m)
    ensures m < |items| ==> IsChannel(items[m]) || (preset == "" && IsFile(items[m]))
  {
    if items == [] then 0
    else if IsChannel(items[0]) || (preset == "" && IsFile(items[0])) then 0
    else
      var m := HandOver(items[1..], preset);
      assert forall k :: 0 < k < m + 1 ==> items[k] == items[1..][k - 1];
      m + 1
  }

  /** A message that is accepted had nothing wrong with it before the hand-over. */
  lemma {:induction false} AcceptedFits(env: Env, items: seq<Item>, preset: string, n: nat)
    requires n <= HandOver(items, preset) && Handle(env, items, preset).outcome.Accepted?
    ensures AllFit(env, items, preset, n)
  {
    hide Ids, Files, Uploads, Channel, Sound, Paired, Stream, HandOver;
    if n > 0 {
      AcceptedFits(env, items, preset, n - 1);
      FirstPrefix(env, items, preset, n - 1);
      FilesFollowIds(env, items, preset, n - 1);
      QuietChannel(items, preset, n - 1);
      StepFits(env, items[..n - 1], items[n - 1], preset);
    }
  }

  /** The channel a restart starts with. */
  function Restarted(item: Item, preset: string): string
    requires IsChannel(item)
  {
    if Capped(item.text) != "" then Capped(item.text) else preset
  }

  /** How an accepted message got there: in one go, by restarting as a stream, or through the
      buffered parser; what the buffering pass had stored by then stays stored. */
  lemma HowAccepted(env: Env, items: seq<Item>, preset: string)
    requires Handle(env, items, preset).outcome.Accepted?
    ensures var r, m := Handle(env, items, preset), HandOver(items, preset);
      var sofar := Uploads(items[..m], preset);
      if m == |items| then r == Stream(env, items, Start(preset))
      else if IsChannel(items[m]) then
        var again := Stream(env, items, Start(Restarted(items[m], preset)));
        r == Report(again.outcome, sofar + again.stored)
      else
        r == Report(Legacy(env, items).outcome, sofar + Legacy(env, items).stored)
  {
    var m := HandOver(items, preset);
    AcceptedFits(env, items, preset, m);
    FirstPrefix(env, items, preset, m);
    QuietChannel(items, preset, m);
    if m == |items| {
      StreamPrefix(env, items, preset, m);
      assert items[m..] == [];
    }
  }

  /** When a message is accepted: nothing is wrong before the hand-over, and the message is one
      that the pass that takes over, from the channel it starts with, accepts. */
  lemma AcceptedIff(env: Env, items: seq<Item>, preset: string)
    ensures var m := HandOver(items, preset);
      Handle(env, items, preset).outcome.Accepted? <==>
        && AllFit(env, items, preset, m)
        && if m == |items| then AllSound(env, items, preset) && WellPaired(items)
           else if IsChannel(items[m]) then
             && items[m].readable && preset in {"", Capped(items[m].text)}
             && AllSound(env, items, Restarted(items[m], preset)) && WellPaired(items)
           else LegacyTakes(env, items)
  {
    hide Ids, Files, Uploads, Channel, Sound, Paired, HandOver, Legacy, LegacyTakes, AllSound, WellPaired;
    var m := HandOver(items, preset);
    StreamAcceptsIff(env, items, preset);
    LegacyAcceptsIff(env, items);
    if m < |items| && IsChannel(items[m]) {
      StreamAcceptsIff(env, items, Restarted(items[m], preset));
    }
    if Handle(env, items, preset).outcome.Accepted? {
      AcceptedFits(env, items, preset, m);
    }
    if AllFit(env, items, preset, m) {
      FirstPrefix(env, items, preset, m);
      QuietChannel(items, preset, m);
      if m == |items| {
        StreamPrefix(env, items, preset, m);
        assert items[m..] == [];
      }
    }
  }

  lemma {:induction false} QuietStoresNothing(items: seq<Item>, n: nat)
    requires n <= |items| && Quiet(items, "", n)
    ensures Uploads(items[..n], "") == []
  {
    if n > 0 {
      QuietStoresNothing(items, n - 1);
      assert items[..n][..n - 1] == items[..n - 1];
    }
  }

  /** Without a channel in the query nothing is stored before the restart or the fall-back,
      and an accepted message has each of its files stored exactly once, in the order of the
      answer. */
  lemma UnsetStoresOnce(env: Env, items: seq<Item>)
    requires Handle(env, items, "").outcome.Accepted?
    ensures var r, m := Handle(env, items, ""), HandOver(items, "");
      && Uploads(items[..m], "") == []
      && r.stored == r.outcome.response.infos
  {
    var m := HandOver(items, "");
    HowAccepted(env, items, "");
    QuietStoresNothing(items, m);
    StreamAcceptsIff(env, items, "");
    if m < |items| {
      if IsChannel(items[m]) {
        StreamAcceptsIff(env, items, Restarted(items[m], ""));
      } else {
        LegacyStoresAnswer(env, items);
      }
    }
  }

  lemma LegacyStoresAnswer(env: Env, items: seq<Item>)
    ensures var r := Legacy(env, items); r.outcome.Accepted? ==> r.stored == r.outcome.response.infos
  {
    hide Legacy, LegacyTakes;
    LegacyAcceptsIff(env, items);
  }

  /** With a channel in the query the same holds unless a file precedes the first `channel_id`
      part: exactly then the files before it are stored twice. */
  lemma PresetStoresTwiceIff(env: Env, items: seq<Item>, preset: string)
    requires preset != "" && Handle(env, items, preset).outcome.Accepted?
    ensures var r, m := Handle(env, items, preset), HandOver(items, preset);
      && r.outcome.response.infos == Uploads(items, preset)
      && r.stored == (if m < |items| then Uploads(items[..m], preset) else []) + r.outcome.response.infos
      && (r.stored == r.outcome.response.infos <==> m == |items| || Files(items[..m]) == [])
  {
    var m := HandOver(items, preset);
    HowAccepted(env, items, preset);
    StreamAcceptsIff(env, items, preset);
    UploadsCount(items, preset, m);
    if m < |items| {
      RestartKeepsPreset(env, items, preset);
    }
  }

  /** Such messages are accepted: a file, then the channel of the query. */
  lemma FileBeforeChannelIsStoredTwice(env: Env, preset: string, name: string, content: string)
    requires preset != "" && |preset| <= MAX_VALUE && env.Gate(preset) == Allowed
    requires !env.refuses(Stored(preset, name, content, ""))
    ensures var info := Stored(preset, name, content, "");
      Handle(env, [File("files", name, content), Value("channel_id", preset, true)], preset)
        == Report(Accepted(Response([info], [])), [info, info])
  {
    var info := Stored(preset, name, content, "");
    var file, channel := File("files", name, content), Value("channel_id", preset, true);
    var items := [file, channel];
    var stored := Pass(preset, [], 1, false, Response([info], []));
    assert items[1..] == [channel] && [channel][1..] == [] && [info] + [info] == [info, info];
    assert Step(env, Start(preset), file, false) == Step(env, Start(preset), file, true) == Go(stored);
    assert Step(env, stored, channel, true) == Go(stored);
    assert Stream(env, [channel], stored) == Stream(env, [], stored);
    assert Stream(env, items, Start(preset)) == Report(Accepted(stored.response), [info]);
    assert First(env, items, [channel], stored) == Before(stored, Stream(env, items, Start(preset)));
  }

  /** The channel part that restarts a message must repeat the channel of the query. */
  lemma RestartKeepsPreset(env: Env, items: seq<Item>, preset: string)
    requires preset != "" && Handle(env, items, preset).outcome.Accepted?
    requires HandOver(items, preset) < |items|
    ensures Restarted(items[HandOver(items, preset)], preset) == preset
  {
    var m := HandOver(items, preset);
    AcceptedFits(env, items, preset, m);
    FirstPrefix(env, items, preset, m);
    QuietChannel(items, preset, m);
  }

  // -------------------------------------------------------------------------
  // The streaming parser refines the buffered one
  // -------------------------------------------------------------------------

  /** Messages both parsers read alike: file parts are called `files`, no identifier is empty,
      no value is cut, and the buffered parser can hold the message. */
  ghost predicate Plain(env: Env, items: seq<Item>) {
    && env.fits(items)
    && forall k :: 0 <= k < |items| ==>
         && (IsFile(items[k]) ==> items[k].form == "files")
         && (IsId(items[k]) || IsChannel(items[k]) ==> items[k].text != "" && Capped(items[k].text) == items[k].text)
  }

  lemma {:induction false} SameValues(env: Env, items: seq<Item>, n: nat)
    requires n <= |items| && Plain(env, items)
    ensures ValuesOf(items[..n], "client_ids") == Ids(items[..n])
    ensures FilesOf(items[..n], "files") == Files(items[..n])
  {
    if n > 0 {
      SameValues(env, items, n - 1);
      assert items[..n][..n - 1] == items[..n - 1];
    }
  }

  /** Every channel named is the one in force, all along. */
  lemma {:induction false} OneChannel(env: Env, items: seq<Item>, channel: string, n: nat)
    requires n <= |items| && Plain(env, items) && channel != "" && AllSound(env, items, channel)
    ensures Channel(items[..n], channel) == channel
    ensures forall v :: v in ValuesOf(items[..n], "channel_id") ==> v == channel
  {
    if n > 0 {
      OneChannel(env, items, channel, n - 1);
      assert Sound(env, items[..n - 1], items[n - 1], channel);
      assert items[..n][..n - 1] == items[..n - 1];
    }
  }

  /** The uploads, file by file: all in the one channel, none refused. */
  lemma {:induction false} UploadsAgree(env: Env, items: seq<Item>, channel: string, n: nat, i: nat)
    requires n <= |items| && Plain(env, items) && channel != "" && AllSound(env, items, channel)
    requires i < |Files(items[..n])|
    ensures |Uploads(items[..n], channel)| == |Files(items[..n])|
    ensures var u := Uploads(items[..n], channel)[i];
      u.channel == channel && !env.refuses(u) && env.Gate(channel) == Allowed
  {
    assert items[..n][..n - 1] == items[..n - 1];
    UploadsCount(items, channel, n - 1);
    OneChannel(env, items, channel, n - 1);
    if i < |Files(items[..n - 1])| {
      UploadsAgree(env, items, channel, n - 1, i);
    } else {
      assert Sound(env, items[..n - 1], items[n - 1], channel);
    }
  }

  lemma {:induction false} AllGiven(ids: seq<string>)
    requires forall i :: 0 <= i < |ids| ==> ids[i] != ""
    ensures Given(ids) == ids
  {
    if ids != [] { AllGiven(ids[..|ids| - 1]); }
  }

  lemma {:induction false} IdsAreGiven(env: Env, items: seq<Item>, n: nat)
    requires n <= |items| && Plain(env, items)
    ensures forall i :: 0 <= i < |Ids(items[..n])| ==> Ids(items[..n])[i] != ""
  {
    if n > 0 {
      IdsAreGiven(env, items, n - 1);
      assert items[..n][..n - 1] == items[..n - 1];
    }
  }

  lemma SoundIsNotMalformed(env: Env, items: seq<Item>, channel: string)
    requires AllSound(env, items, channel)
    ensures forall k :: 0 <= k < |items| ==> !Malformed(items[k])
  {
    forall k | 0 <= k < |items| ensures !Malformed(items[k]) {
      assert Sound(env, items[..k], items[k], channel);
    }
  }

  lemma {:induction false} ChannelIsListed(items: seq<Item>, n: nat)
    requires n <= |items|
    ensures (exists k :: 0 <= k < n && IsChannel(items[k])) ==> ValuesOf(items[..n], "channel_id") != []
  {
    if n > 0 {
      ChannelIsListed(items, n - 1);
      assert items[..n][..n - 1] == items[..n - 1];
    }
  }

  /** A plain message with a channel part that the streaming pass accepts: the buffered
      parser accepts it too, stores the same files and gives the same answer, exactly if it
      holds a file or its channel would do for one. (With no file at all the streaming pass
      never looks at the channel.) */
  lemma StreamRefinesLegacy(env: Env, items: seq<Item>, channel: string)
    requires Plain(env, items) && channel != "" && (exists k :: 0 <= k < |items| && IsChannel(items[k]))
    requires Stream(env, items, Start(channel)).outcome.Accepted?
    ensures Legacy(env, items).outcome.Accepted? <==>
      Files(items) != [] || env.Gate(channel) !in {BadId, NoPermission}
    ensures Legacy(env, items).outcome.Accepted? ==> Legacy(env, items) == Stream(env, items, Start(channel))
  {
    hide Ids, Files, Uploads, ValuesOf, FilesOf, Stream, Legacy, LegacyUploads, Channel, Sound, IdsLead, Given;
    StreamAcceptsIff(env, items, channel);
    LegacyAcceptsIff(env, items);
    assert items[..|items|] == items;
    SameValues(env, items, |items|);
    OneChannel(env, items, channel, |items|);
    ChannelIsListed(items, |items|);
    SoundIsNotMalformed(env, items, channel);
    IdsAreGiven(env, items, |items|);
    UploadsCount(items, channel, |items|);
    var ids, files, uploads := Ids(items), Files(items), Uploads(items, channel);
    AllGiven(ids);
    forall i | 0 <= i < |files|
      ensures !env.refuses(uploads[i]) && env.Gate(channel) == Allowed
      ensures uploads[i] == InfoAt(channel, ids, files, i)
    {
      UploadsAgree(env, items, channel, |items|, i);
      UploadsPair(items, channel, |items|, i);
    }
    if files != [] { UploadsAgree(env, items, channel, |items|, 0); }
    assert uploads == FirstInfos(channel, ids, files, |files|);
    assert ValuesOf(items, "channel_id")[0] in ValuesOf(items, "channel_id");
  }

  /** A message of just a channel its sender may not use: accepted by the streaming pass and by
      the handler, refused by the buffered parser. */
  lemma NoFileNoGate(env: Env, channel: string)
    requires channel != "" && |channel| <= MAX_VALUE && env.access(channel) == NoPermission
    requires env.fits([Value("channel_id", channel, true)])
    ensures var items := [Value("channel_id", channel, true)];
      && Plain(env, items)
      && Stream(env, items, Start(channel)) == Handle(env, items, "") == Report(Accepted(Response([], [])), [])
      && Legacy(env, items) == Report(Rejected(Denied(NoPermission)), [])
  {
    var item := Value("channel_id", channel, true);
    var items := [item];
    assert items[1..] == [];
    assert Step(env, Start(channel), item, true) == Go(Start(channel));
    assert Stream(env, items, Start(channel)) == Stream(env, [], Start(channel));
    assert Step(env, Start(""), item, false) == Restart(channel);
    assert items[..|items| - 1] == [] && [] + [channel] == [channel];
    assert ValuesOf(items, "channel_id") == [channel] && ValuesOf(items, "client_ids") == [];
  }
}
