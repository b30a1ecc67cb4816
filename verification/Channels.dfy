/** Streaming all channels of a user, page by page, as one JSON array. */
module Channels {
  import opened Text

  /** Identifiers are only compared; zero stands for the empty one, which precedes all. */
  type Id = nat

  datatype Channel = Channel(id: Id, body: string)

  datatype Error = InvalidParam | NotFound | AppError | PropsError

  datatype Result<T> = Ok(value: T) | Err(error: Error)

  // -------------------------------------------------------------------------
  // One page
  // -------------------------------------------------------------------------

  ghost predicate Sorted(all: seq<Channel>) {
    (forall i :: 0 <= i < |all| ==> all[i].id > 0) && forall i, j :: 0 <= i < j < |all| ==> all[i].id < all[j].id
  }

  /** The channels with a larger identifier than `from`. */
  function After(all: seq<Channel>, from: Id): seq<Channel> {
    if all == [] then []
    else if all[0].id > from then [all[0]] + After(all[1..], from)
    else After(all[1..], from)
  }

  lemma {:induction false} AfterAll(all: seq<Channel>, from: Id)
    requires forall i :: 0 <= i < |all| ==> all[i].id > from
    ensures After(all, from) == all
  {
    if all != [] { AfterAll(all[1..], from); }
  }

  /** A cursor on the last channel of a front part selects the rest. */
  lemma {:induction false} AfterCursor(all: seq<Channel>, n: nat)
    requires Sorted(all) && n <= |all|
    ensures After(all, if n == 0 then 0 else all[n - 1].id) == all[n..]
  {
    var from := if n == 0 then 0 else all[n - 1].id;
    AfterFront(all, n, from);
    AfterAll(all[n..], from);
  }

  lemma CursorIsSet(all: seq<Channel>, n: nat)
    requires Sorted(all) && n <= |all|
    ensures (if n == 0 then 0 else all[n - 1].id) == 0 <==> n == 0
  {}

  lemma {:induction false} AfterFront(all: seq<Channel>, n: nat, from: Id)
    requires n <= |all| && forall i :: 0 <= i < n ==> all[i].id <= from
    ensures After(all, from) == After(all[n..], from)
  {
    if n > 0 {
      AfterFront(all[1..], n - 1, from);
      assert all[1..][n - 1..] == all[n..];
    }
  }

  /** `App.GetChannelsForUser`: the next page after the cursor; an empty one is an error. */
  function Page(all: seq<Channel>, pageSize: nat, from: Id): Result<seq<Channel>> {
    var rest := After(all, from);
    if rest == [] then Err(NotFound)
    else if |rest| < pageSize then Ok(rest)
    else Ok(rest[..pageSize])
  }

  // -------------------------------------------------------------------------
  // The JSON array
  // -------------------------------------------------------------------------

  datatype Token = Open | Close | Comma | Value(channel: Channel) | Newline

  /** Values separated by commas, each followed by the encoder's newline. */
  function Elements(channels: seq<Channel>): seq<Token> {
    if channels == [] then []
    else
      var front, last := channels[..|channels| - 1], channels[|channels| - 1];
      Elements(front) + (if front == [] then [] else [Comma]) + [Value(last), Newline]
  }

  function ArrayOf(channels: seq<Channel>): seq<Token> {
    [Open] + Elements(channels) + [Close]
  }

  function Compact(tokens: seq<Token>): seq<Token> {
    if tokens == [] then []
    else (if tokens[0] == Newline then [] else [tokens[0]]) + Compact(tokens[1..])
  }

  /** Reading an array the way section 5 of RFC 8259 defines it, white space aside. */
  function ReadArray(tokens: seq<Token>): Option<seq<Channel>> {
    if tokens == [Open, Close] then Some([])
    else if tokens != [] && tokens[0] == Open then ReadValues(tokens[1..])
    else None
  }

  function ReadValues(tokens: seq<Token>): Option<seq<Channel>> {
    if |tokens| < 2 || !tokens[0].Value? then None
    else if tokens[1] == Close then if |tokens| == 2 then Some([tokens[0].channel]) else None
    else if tokens[1] != Comma then None
    else
      match ReadValues(tokens[2..])
      case None => None
      case Some(rest) => Some([tokens[0].channel] + rest)
  }

  lemma {:induction false} CompactConcat(a: seq<Token>, b: seq<Token>)
    ensures Compact(a + b) == Compact(a) + Compact(b)
  {
    if a == [] {
      assert a + b == b;
    } else {
      assert (a + b)[1..] == a[1..] + b;
      CompactConcat(a[1..], b);
    }
  }

  /** What separates two consecutive runs of elements is one comma. */
  lemma {:induction false} ElementsConcat(a: seq<Channel>, b: seq<Channel>)
    requires a != [] && b != []
    ensures Elements(a + b) == Elements(a) + [Comma] + Elements(b)
    decreases |b|
  {
    var front, last := b[..|b| - 1], b[|b| - 1];
    assert (a + b)[..|a + b| - 1] == a + front;
    if front == [] {
      assert a + front == a;
    } else {
      ElementsConcat(a, front);
      assert Elements(b) == Elements(front) + [Comma] + [Value(last), Newline];
    }
  }

  lemma CompactElement(c: Channel)
    ensures Compact([Value(c), Newline]) == [Value(c)]
    ensures Compact([Comma]) == [Comma] && Compact([Close]) == [Close]
  {
    CompactConcat([Value(c)], [Newline]);
    assert [Value(c)] + [Newline] == [Value(c), Newline];
  }

  lemma {:induction false} ReadBackElements(channels: seq<Channel>)
    requires channels != []
    ensures ReadValues(Compact(Elements(channels)) + [Close]) == Some(channels)
  {
    hide Compact;
    var first, rest := channels[0], channels[1..];
    assert channels == [first] + rest;
    assert Elements([first]) == [Value(first), Newline];
    CompactElement(first);
    var tokens := Compact(Elements(channels)) + [Close];
    if rest == [] {
      assert channels == [first];
      assert tokens == [Value(first), Close];
    } else {
      ReadBackElements(rest);
      ElementsConcat([first], rest);
      CompactConcat([Value(first), Newline] + [Comma], Elements(rest));
      CompactConcat([Value(first), Newline], [Comma]);
      assert tokens == [Value(first), Comma] + (Compact(Elements(rest)) + [Close]);
      assert tokens[2..] == Compact(Elements(rest)) + [Close];
    }
  }

  /** Reading the rendering back gives the channels, each once and in order. */
  lemma ReadBack(channels: seq<Channel>)
    ensures ReadArray(Compact(ArrayOf(channels))) == Some(channels)
  {
    CompactConcat([Open], Elements(channels) + [Close]);
    assert [Open] + (Elements(channels) + [Close]) == ArrayOf(channels);
    CompactConcat(Elements(channels), [Close]);
    if channels != [] {
      ReadBackElements(channels);
      var tokens := Compact(ArrayOf(channels));
      assert tokens[1..] == Compact(Elements(channels)) + [Close];
    } else {
      assert Elements(channels) + [Close] == [Close];
    }
  }

  // -------------------------------------------------------------------------
  // The handler
  // -------------------------------------------------------------------------

  class Writer {
    var sent: seq<Token>

    method Write(t: Token)
      modifies this
      ensures sent == old(sent) + [t]
    {
      sent := sent + [t];
    }
  }

  /** One page: a comma if another page went before, then its channels with commas in between. */
  method WritePage(w: Writer, page: seq<Channel>, first: bool)
    modifies w
    ensures w.sent == old(w.sent) + ((if first then [] else [Comma]) + Elements(page))
  {
    if !first {
      w.Write(Comma);
    }
    ghost var sofar := w.sent;
    for i := 0 to |page|
      invariant w.sent == sofar + Elements(page[..i]) + (if 0 < i < |page| then [Comma] else [])
    {
      w.Write(Value(page[i]));
      w.Write(Newline);
      assert page[..i + 1][..i] == page[..i];
      if i < |page| - 1 {
        w.Write(Comma);
      }
    }
    assert page[..|page|] == page;
  }

  /** What the application layer does with the `k`-th request: answer, fail, or answer with
      channels whose properties cannot be filled in. */
  datatype Answer = Answers | Fails | LacksProps

  /** How many channels the first `k` full pages hold. */
  function Start(k: nat, pageSize: nat): nat {
    k * pageSize
  }

  /** The tokens sent when request `k` is the one that goes wrong: an array cut off after
      `k` full pages. */
  function CutOff(all: seq<Channel>, pageSize: nat, k: nat): seq<Token>
    requires Start(k, pageSize) <= |all|
  {
    [Open] + Elements(all[..Start(k, pageSize)])
  }

  /** Request `k` goes well; an empty page has no properties to fill in. */
  predicate GoesWell(all: seq<Channel>, pageSize: nat, app: nat -> Answer, k: nat) {
    app(k) == Answers || (app(k) == LacksProps && Start(k, pageSize) >= |all|)
  }

  ghost predicate AllGoWell(all: seq<Channel>, pageSize: nat, app: nat -> Answer, n: nat) {
    forall k :: 0 <= k < n ==> GoesWell(all, pageSize, app, k)
  }

  lemma NextStart(k: nat, pageSize: nat)
    ensures Start(0, pageSize) == 0 && Start(k + 1, pageSize) == Start(k, pageSize) + pageSize
  {}

  /** How many pages are full. */
  function FullPages(total: nat, pageSize: nat): nat
    requires pageSize > 0
  {
    if total < pageSize then 0 else 1 + FullPages(total - pageSize, pageSize)
  }

  /** Requests before the last one start within the list; the last one finds less than a page. */
  lemma {:induction false} RequestsInRange(total: nat, pageSize: nat, k: nat)
    requires pageSize > 0 && Start(k, pageSize) <= total
    ensures k <= FullPages(total, pageSize)
    ensures total < Start(k, pageSize) + pageSize ==> k == FullPages(total, pageSize)
    decreases k
  {
    if k > 0 {
      NextStart(k - 1, pageSize);
      RequestsInRange(total - pageSize, pageSize, k - 1);
    }
  }

  /** Sending one more page after `done` channels. */
  lemma NextPage(all: seq<Channel>, done: nat, page: seq<Channel>)
    requires done + |page| <= |all| && page == all[done..done + |page|] && page != []
    ensures Elements(all[..done + |page|])
         == Elements(all[..done]) + ((if done == 0 then [] else [Comma]) + Elements(page))
  {
    hide Elements;
    assert all[..done + |page|] == all[..done] + page;
    ElementsOfNone();
    if done > 0 {
      ElementsConcat(all[..done], page);
    } else {
      assert all[..0] == [] && all[..0] + page == page;
    }
  }

  /** The page at a cursor is the next stretch of the list, empty only at its end. */
  lemma PageIsSlice(all: seq<Channel>, pageSize: nat, from: Id, done: nat)
    requires pageSize > 0 && done <= |all| && After(all, from) == all[done..]
    ensures var n := if |all| - done < pageSize then |all| - done else pageSize;
      Page(all, pageSize, from) == if done == |all| then Err(NotFound) else Ok(all[done..done + n])
  {
    assert all[done..] == all[done..|all|];
    if |all| - done >= pageSize {
      assert all[done..][..pageSize] == all[done..done + pageSize];
    }
  }

  lemma ElementsOfNone()
    ensures Elements([]) == []
  {}

  /** `getChannelsForUser`. When every request goes well and there is at least one channel,
      what is sent is the array of all of them, after one request more than there are full
      pages; with no channel at all the request fails. A request that goes wrong leaves the
      array cut off there. */
  method GetChannelsForUser(w: Writer, all: seq<Channel>, pageSize: nat, lastDeleteAt: int, app: nat -> Answer)
    returns (error: Option<Error>, requests: nat)
    requires Sorted(all) && pageSize > 0
    modifies w
    ensures lastDeleteAt < 0 ==> error == Some(InvalidParam) && w.sent == old(w.sent)
    ensures lastDeleteAt >= 0 && AllGoWell(all, pageSize, app, FullPages(|all|, pageSize) + 1) ==>
      if all == [] then error == Some(NotFound) && w.sent == old(w.sent) + [Open]
      else error == None && w.sent == old(w.sent) + ArrayOf(all) && requests == FullPages(|all|, pageSize) + 1
    ensures lastDeleteAt >= 0 && !AllGoWell(all, pageSize, app, FullPages(|all|, pageSize) + 1) ==>
      && error == Some(if app(requests) == Fails then AppError else PropsError)
      && !GoesWell(all, pageSize, app, requests) && AllGoWell(all, pageSize, app, requests)
      && Start(requests, pageSize) <= |all| && w.sent == old(w.sent) + CutOff(all, pageSize, requests)
  {
    hide Elements, After, FullPages, Page, Start, Sorted;
    requests := 0;
    NextStart(0, pageSize);
    ElementsOfNone();
    if lastDeleteAt < 0 {
      return Some(InvalidParam), requests;
    }
    var from: Id := 0;
    w.Write(Open);
    ghost var done: nat := 0;
    assert all[..0] == [];
    while true
      invariant done <= |all| && done == Start(requests, pageSize) && AllGoWell(all, pageSize, app, requests)
      invariant from == if done == 0 then 0 else all[done - 1].id
      invariant w.sent == old(w.sent) + [Open] + Elements(all[..done])
      decreases |all| - done
    {
      AfterCursor(all, done);
      CursorIsSet(all, done);
      RequestsInRange(|all|, pageSize, requests);
      NextStart(requests, pageSize);
      PageIsSlice(all, pageSize, from, done);
      var page := if app(requests) == Fails then Err(AppError) else Page(all, pageSize, from);
      assert GoesWell(all, pageSize, app, requests) <==>
        app(requests) == Answers || (app(requests) == LacksProps && done == |all|);
      if page.Err? {
        if from != 0 && page.error == NotFound {
          requests := requests + 1;
          break;
        }
        return Some(page.error), requests;
      }
      if app(requests) == LacksProps {
        return Some(PropsError), requests;
      }
      NextPage(all, done, page.value);
      WritePage(w, page.value, from == 0);
      if |page.value| < pageSize {
        done := done + |page.value|;
        requests := requests + 1;
        break;
      }
      from := page.value[|page.value| - 1].id;
      done := done + pageSize;
      requests := requests + 1;
    }
    w.Write(Close);
    assert all[..|all|] == all;
    error := None;
  }
}
