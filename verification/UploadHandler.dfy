/** The upload handler over the bytes of a request: what it has read is kept in a buffer, so
    that the message can be read again from its beginning. */
module UploadHandler {
  import opened Text
  import opened Upload

  type Bytes = seq<bv8>

  /** `r.Body`: bytes can be read once. */
  class Body {
    const data: Bytes
    var pos: nat

    constructor (d: Bytes)
      ensures data == d && pos == 0
    {
      data, pos := d, 0;
    }

    ghost predicate Valid()
      reads this
    {
      pos <= |data|
    }

    function Unread(): Bytes
      requires Valid()
      reads this
    {
      data[pos..]
    }

    method Read(n: nat) returns (chunk: Bytes)
      requires Valid()
      modifies this
      ensures Valid() && chunk + Unread() == old(Unread())
    {
      var end := if pos + n <= |data| then pos + n else |data|;
      chunk := data[pos..end];
      pos := end;
      assert data[old(pos)..] == data[old(pos)..end] + data[end..];
    }
  }

  /** `bytes.Buffer`. */
  class Buffer {
    var bytes: Bytes

    constructor ()
      ensures bytes == []
    {
      bytes := [];
    }
  }

  /** Where the parts of a message are read from: the body, with a copy of every byte going
      to a buffer (`io.TeeReader`), or that buffer followed by the rest of the body
      (`io.MultiReader`). */
  datatype Source = Tee(body: Body, copy: Buffer) | Chain(front: Buffer, body: Body)
  {
    function Buf(): Buffer {
      if Tee? then copy else front
    }
  }

  /** What a source still has to give. */
  function Stream(s: Source): Bytes
    requires s.body.Valid()
    reads s.body, s.Buf()
  {
    if s.Tee? then s.body.Unread() else s.front.bytes + s.body.Unread()
  }

  /** A tee has kept a copy of everything read from the body. */
  ghost predicate Kept(s: Source)
    reads s.body, s.Buf()
  {
    s.body.Valid() && (s.Tee? ==> s.copy.bytes + s.body.Unread() == s.body.data)
  }

  method Pull(s: Source, n: nat)
    requires Kept(s)
    modifies s.body, s.Buf()
    ensures Kept(s)
  {
    if s.Tee? {
      var chunk := s.body.Read(n);
      s.copy.bytes := s.copy.bytes + chunk;
    } else if n <= |s.front.bytes| {
      s.front.bytes := s.front.bytes[n..];
    } else {
      var _ := s.body.Read(n - |s.front.bytes|);
      s.front.bytes := [];
    }
  }

  /** `ReadForm` reads to the end. */
  method ReadAll(s: Source) returns (message: Bytes)
    requires Kept(s)
    modifies s.body, s.Buf()
    ensures message == old(Stream(s))
  {
    message := Stream(s);
    Pull(s, |message|);
  }

  /** `c`: the channel of the request, and its error. */
  class Context {
    var channelId: string
    var err: Option<Error>

    constructor (channel: string)
      ensures channelId == channel && err == None
    {
      channelId, err := channel, None;
    }
  }

  /** The application: the files it has stored. */
  class App {
    var stored: seq<Stored>

    method UploadFile(env: Env, info: Stored) returns (ok: bool)
      modifies this
      ensures ok == !env.refuses(info)
      ensures stored == if ok then old(stored) + [info] else old(stored)
    {
      ok := !env.refuses(info);
      if ok {
        stored := stored + [info];
      }
    }
  }

  /** The answer and the stored files are those of `report`, on top of what was stored before. */
  ghost predicate Reports(report: Report, before: seq<Stored>, resp: Option<Response>, err: Option<Error>,
                          after: seq<Stored>)
  {
    && after == before + report.stored
    && match report.outcome
       case Accepted(r) => resp == Some(r) && err == None
       case Rejected(e) => resp == None && err == Some(e)
  }

  /** `uploadFileMultipartLegacy`, on everything the source still has to give. */
  method UploadFileMultipartLegacy(env: Env, parse: Bytes -> seq<Item>, c: Context, app: App, source: Source)
    returns (resp: Option<Response>)
    requires c.err == None && Kept(source)
    modifies c, app, source.body, source.Buf()
    ensures Reports(Legacy(env, parse(old(Stream(source)))), old(app.stored), resp, c.err, app.stored)
  {
    hide LegacyUploads, ValuesOf, FilesOf;
    resp := None;
    var message := ReadAll(source);
    var items := parse(message);
    if !env.fits(items) || exists i :: 0 <= i < |items| && Malformed(items[i]) {
      c.err := Some(BadMessage);
      return;
    }
    var channels := ValuesOf(items, "channel_id");
    if |channels| == 0 {
      c.err := Some(InvalidParam("channel_id"));
      return;
    }
    var channelId := channels[0];
    c.channelId := channelId;
    if env.Gate(channelId) in {BadId, NoPermission} {
      c.err := Some(Denied(env.Gate(channelId)));
      return;
    }
    var clientIds, files := ValuesOf(items, "client_ids"), FilesOf(items, "files");
    if |clientIds| != 0 && |clientIds| != |files| {
      c.err := Some(WrongIdCount(|clientIds|, |files|));
      return;
    }
    var response := Response([], []);
    LoopBegins(env, channelId, clientIds, files);
    for i := 0 to |files|
      invariant c.err == None && resp == None
      invariant LegacyUploads(env, channelId, clientIds, files, i) == Report(Accepted(response), response.infos)
      invariant app.stored == old(app.stored) + response.infos
    {
      var clientId := if |clientIds| > 0 then clientIds[i] else "";
      var info := Stored(channelId, files[i].name, files[i].content, clientId);
      var ok := app.UploadFile(env, info);
      if !ok {
        LoopFails(env, channelId, clientIds, files, i);
        LegacyKeepsFailing(env, channelId, clientIds, files, i + 1, |files|);
        c.err := Some(Refused);
        return;
      }
      LoopStep(env, channelId, clientIds, files, i, response.infos, response.clientIds);
      if clientId != "" {
        response := Response(response.infos + [info], response.clientIds + [clientId]);
      } else {
        response := Response(response.infos + [info], response.clientIds);
      }
    }
    resp := Some(response);
  }

  lemma {:induction false} LegacyKeepsFailing(env: Env, channel: string, ids: seq<string>, files: seq<Item>,
                                              n: nat, m: nat)
    requires n <= m <= |files| && (ids == [] || |ids| == |files|)
    requires forall i :: 0 <= i < |files| ==> files[i].File?
    requires LegacyUploads(env, channel, ids, files, n).outcome.Rejected?
    ensures LegacyUploads(env, channel, ids, files, m) == LegacyUploads(env, channel, ids, files, n)
  {
    if n < m { LegacyKeepsFailing(env, channel, ids, files, n, m - 1); }
  }

  /** What is left of a pass. */
  ghost function Rest(env: Env, all: seq<Item>, items: seq<Item>, pass: Pass, streaming: bool): Report {
    if streaming then Upload.Stream(env, items, pass) else First(env, all, items, pass)
  }

  lemma RestBegins(env: Env, all: seq<Item>, channel: string, streaming: bool)
    ensures Rest(env, all, all[0..], Start(channel), streaming) ==
      if streaming then Upload.Stream(env, all, Start(channel)) else Handle(env, all, channel)
  {
    assert all[0..] == all;
  }

  lemma RestStep(env: Env, all: seq<Item>, n: nat, pass: Pass, streaming: bool)
    requires n < |all|
    ensures Rest(env, all, all[n..], pass, streaming) ==
      Follow(env, all, n + 1, pass, Step(env, pass, all[n], streaming), streaming)
  {
    assert all[n..][1..] == all[n + 1..];
  }

  ghost function Follow(env: Env, all: seq<Item>, n: nat, pass: Pass, next: Next, streaming: bool): Report
    requires n <= |all|
  {
    match next
    case Go(p) => Rest(env, all, all[n..], p, streaming)
    case Fail(error) => Report(Rejected(error), pass.response.infos)
    case Restart(channel) =>
      if streaming then Report(Rejected(BadMessage), pass.response.infos)
      else Before(pass, Upload.Stream(env, all, Start(channel)))
    case FallBack =>
      if streaming then Report(Rejected(BadMessage), pass.response.infos)
      else Before(pass, Legacy(env, all))
  }

  lemma RestEnd(env: Env, all: seq<Item>, pass: Pass, streaming: bool)
    ensures Rest(env, all, [], pass, streaming) == Report(Finish(pass), pass.response.infos)
  {}

  /** A file part: the checks on the channel, the client id of the file, and the upload. */
  method UploadPart(env: Env, c: Context, app: App, name: string, content: string,
                    clientIds: seq<string>, nFiles: nat, expectIds: bool, response: Response)
    returns (ok: bool, expectClientIds: bool, answer: Response)
    requires c.err == None
    modifies c`err, app
    ensures ok == (c.err == None)
    ensures GatedFile(env, Pass(c.channelId, clientIds, nFiles, expectIds, response), name, content) ==
      if ok then Go(Pass(c.channelId, clientIds, nFiles + 1, expectClientIds, answer)) else Fail(c.err.value)
    ensures if ok
      then exists info :: answer.infos == response.infos + [info] && app.stored == old(app.stored) + [info]
      else app.stored == old(app.stored)
  {
    expectClientIds, answer, ok := expectIds, response, false;
    if env.Gate(c.channelId) != Allowed {
      c.err := Some(Denied(env.Gate(c.channelId)));
      return;
    }
    if nFiles == 0 && |clientIds| == 0 {
      expectClientIds := false;
    }
    var clientId := "";
    if expectClientIds {
      if nFiles >= |clientIds| {
        c.err := Some(InvalidParam("client_ids"));
        return;
      }
      clientId := clientIds[nFiles];
    }
    var info := Stored(c.channelId, name, content, clientId);
    ok := app.UploadFile(env, info);
    if !ok {
      c.err := Some(Refused);
      return;
    }
    answer := Response(response.infos + [info], response.clientIds + if expectClientIds then [clientId] else []);
  }

  /** `uploadFileMultipart`. The buffering pass (no `replay`) does what `Handle` says; it calls
      itself at most once, with a stream that is the whole message again, and the streaming
      pass does what `Stream` says. */
  method UploadFileMultipart(env: Env, parse: Bytes -> seq<Item>, pulls: nat -> nat,
                             c: Context, app: App, body: Body, replay: Buffer?)
    returns (resp: Option<Response>, ghost restarts: nat)
    requires c.err == None && body.Valid()
    requires if replay == null then body.pos == 0 else replay.bytes + body.Unread() == body.data
    modifies c, app, body, replay
    ensures replay == null ==>
      Reports(Handle(env, parse(body.data), old(c.channelId)), old(app.stored), resp, c.err, app.stored)
    ensures replay != null ==>
      Reports(Upload.Stream(env, parse(body.data), Start(old(c.channelId))), old(app.stored), resp, c.err, app.stored)
    ensures restarts <= if replay == null then 1 else 0
    decreases replay == null
  {
    hide Upload.Stream, First, Legacy, GatedFile, Rest, Handle, Capped, Env.Gate;
    var streaming := replay != null;
    resp, restarts := None, 0;
    var source;
    if replay == null {
      var buf := new Buffer();
      source := Tee(body, buf);
    } else {
      source := Chain(replay, body);
    }
    var items := parse(Stream(source));
    var clientIds: seq<string>, nFiles, expectClientIds, response := [], 0, true, Response([], []);
    var next := 0;
    ghost var report :=
      if streaming then Upload.Stream(env, items, Start(c.channelId)) else Handle(env, items, c.channelId);
    RestBegins(env, items, c.channelId, streaming);
    while next < |items|
      invariant next <= |items| && c.err == None && resp == None && restarts == 0
      invariant Kept(source) && (!streaming ==> source.Tee? && fresh(source.copy))
      invariant app.stored == old(app.stored) + response.infos
      invariant Rest(env, items, items[next..],
                     Pass(c.channelId, clientIds, nFiles, expectClientIds, response), streaming) == report
    {
      Pull(source, pulls(next));
      var item := items[next];
      ghost var pass := Pass(c.channelId, clientIds, nFiles, expectClientIds, response);
      RestStep(env, items, next, pass, streaming);
      next := next + 1;
      match item {
        case Broken =>
          c.err := Some(BadMessage);
          return;
        case Value(form, text, readable) =>
          if form == "" {
            continue;
          }
          if !readable {
            c.err := Some(UnreadableValue(form));
            return;
          }
          var v := Capped(text);
          if form == "channel_id" {
            if c.channelId != "" && c.channelId != v {
              c.err := Some(ManyChannelIds);
              return;
            }
            if v != "" {
              c.channelId := v;
            }
            if !streaming {
              resp, restarts := UploadFileMultipart(env, parse, pulls, c, app, body, source.copy);
              restarts := restarts + 1;
              return;
            }
          } else if form == "client_ids" {
            if !expectClientIds {
              c.err := Some(InvalidParam("client_ids"));
              return;
            }
            clientIds := clientIds + [v];
          } else {
            c.err := Some(InvalidParam(form));
            return;
          }
        case File(form, name, content) =>
          if form == "" {
            continue;
          }
          if c.channelId == "" && !streaming {
            resp := UploadFileMultipartLegacy(env, parse, c, app, Chain(source.copy, body));
            return;
          }
          var ok;
          ok, expectClientIds, response :=
            UploadPart(env, c, app, name, content, clientIds, nFiles, expectClientIds, response);
          if !ok {
            return;
          }
          nFiles := nFiles + 1;
      }
    }
    RestEnd(env, items, Pass(c.channelId, clientIds, nFiles, expectClientIds, response), streaming);
    assert items[next..] == [];
    if expectClientIds && |clientIds| != nFiles {
      c.err := Some(WrongIdCount(|clientIds|, nFiles));
      return;
    }
    resp := Some(response);
  }
}
