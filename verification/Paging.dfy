// Bounded paging, as every collector does it: fetch pages, each with the cursor that the reply before
// it handed out, until the last one, an error, a denial, or the page limit.
module Paging {
  import opened GoStrings

  // One reply. next is the cursor for the call after it; None stands for what ends the loop (a next
  // page of zero, an empty next page, or no further page).
  datatype Reply<+T, +C> = Page(items: seq<T>, next: Option<C>) | Denied | Broken

  datatype End = Complete | NoAccess | Error

  datatype Gathered<+T> = Gathered(items: seq<T>, end: End)

  // A server: fetch(k, cursor) is the reply to the k-th call, made with that cursor.
  type Fetch<!T, !C> = (nat, C) -> Reply<T, C>

  // What the calls page, page + 1, ... bring in, the first of them made with the given cursor.
  function Gather<T, C>(fetch: Fetch<T, C>, cursor: C, page: nat, maxPages: nat): Gathered<T>
    decreases maxPages - page
  {
    if page >= maxPages then Gathered([], Complete)
    else
      match fetch(page, cursor)
      case Broken => Gathered([], Error)
      case Denied => Gathered([], NoAccess)
      case Page(items, next) =>
        if next == None then Gathered(items, Complete)
        else
          var rest := Gather(fetch, next.value, page + 1, maxPages);
          Gathered(items + rest.items, rest.end)
  }

  // One round of a paging loop that has read so much already.
  lemma GatherNext<T, C>(fetch: Fetch<T, C>, cursor: C, page: nat, maxPages: nat, read: seq<T>)
    requires page < maxPages && fetch(page, cursor).Page?
    ensures var g, reply := Gather(fetch, cursor, page, maxPages), fetch(page, cursor);
      var items := read + reply.items;
      if reply.next.Some?
      then
        var rest := Gather(fetch, reply.next.value, page + 1, maxPages);
        Gathered(read + g.items, g.end) == Gathered(items + rest.items, rest.end)
      else Gathered(read + g.items, g.end) == Gathered(items, Complete)
  {
    var reply := fetch(page, cursor);
    if reply.next.Some? {
      var items, rest := reply.items, Gather(fetch, reply.next.value, page + 1, maxPages).items;
      assert read + (items + rest) == read + items + rest;
    }
  }

  lemma GatherStops<T, C>(fetch: Fetch<T, C>, cursor: C, page: nat, maxPages: nat, read: seq<T>)
    requires page >= maxPages || !fetch(page, cursor).Page?
    ensures var g := Gather(fetch, cursor, page, maxPages);
      && read + g.items == read
      && g.end == if page >= maxPages then Complete else if fetch(page, cursor).Broken? then Error else NoAccess
  {
  }

  function Flatten<T>(pages: seq<seq<T>>): seq<T> {
    if pages == [] then [] else pages[0] + Flatten(pages[1..])
  }

  // The server hands out these pages along a chain of cursors: page k answers the k-th call when that
  // is made with cursors[k], and hands out cursors[k + 1]. Of calls with other cursors nothing is said.
  ghost predicate Serves<T(!new), C(!new)>(fetch: Fetch<T, C>, cursors: seq<C>, pages: seq<seq<T>>) {
    && |cursors| == |pages| > 0
    && forall k: nat {:trigger pages[k]} :: k < |pages| ==>
         fetch(k, cursors[k]) == Page(pages[k], if k + 1 < |pages| then Some(cursors[k + 1]) else None)
  }

  // The pages read, from page on, under a limit.
  function Upto(maxPages: nat, page: nat, n: nat): nat {
    if maxPages < page then page else if maxPages < n then maxPages else n
  }

  lemma {:induction false} GatherFrom<T(!new), C(!new)>(fetch: Fetch<T, C>, cursors: seq<C>, pages: seq<seq<T>>,
                                                        page: nat, maxPages: nat)
    requires Serves(fetch, cursors, pages) && page < |pages|
    ensures Gather(fetch, cursors[page], page, maxPages)
         == Gathered(Flatten(pages[page..Upto(maxPages, page, |pages|)]), Complete)
    decreases maxPages - page
  {
    if page < maxPages {
      var last := Upto(maxPages, page, |pages|);
      assert pages[page..last][0] == pages[page] && pages[page..last][1..] == pages[page + 1..last];
      if page + 1 < |pages| {
        GatherFrom(fetch, cursors, pages, page + 1, maxPages);
      } else {
        assert pages[page + 1..last] == [] && Flatten<T>([]) == [];
        assert pages[page] + [] == pages[page];
      }
    }
  }

  // However a list is cut into at most maxPages pages, following the chain of cursors brings in exactly
  // the list; of a longer cut it brings in the first maxPages pages.
  lemma GatherServed<T(!new), C(!new)>(fetch: Fetch<T, C>, cursors: seq<C>, pages: seq<seq<T>>, maxPages: nat)
    requires Serves(fetch, cursors, pages)
    ensures Gather(fetch, cursors[0], 0, maxPages)
         == Gathered(Flatten(if maxPages < |pages| then pages[..maxPages] else pages), Complete)
  {
    hide Gather, Flatten;
    GatherFrom(fetch, cursors, pages, 0, maxPages);
    assert pages[0..] == pages && pages[0..Upto(maxPages, 0, |pages|)]
        == if maxPages < |pages| then pages[..maxPages] else pages;
  }

  // ----- Cursors that never end -----

  // Every call, whatever its cursor, is answered by a page and a further cursor.
  ghost predicate NeverEnds<T(!new), C(!new)>(fetch: Fetch<T, C>) {
    forall k, c :: fetch(k, c).Page? && fetch(k, c).next.Some?
  }

  // The pages that calls page, page + 1, ... up to the limit bring in, each cursor from the page before.
  ghost function PagesRead<T(!new), C(!new)>(fetch: Fetch<T, C>, cursor: C, page: nat, maxPages: nat): seq<seq<T>>
    requires NeverEnds(fetch)
    decreases maxPages - page
  {
    if page >= maxPages then []
    else [fetch(page, cursor).items] + PagesRead(fetch, fetch(page, cursor).next.value, page + 1, maxPages)
  }

  // A server whose cursors never end is read for exactly the remaining calls of the limit; in
  // particular one that hands out the cursor it was given.
  lemma {:induction false} EndlessCursorsEnd<T(!new), C(!new)>(fetch: Fetch<T, C>, cursor: C, page: nat, maxPages: nat)
    requires NeverEnds(fetch)
    ensures Gather(fetch, cursor, page, maxPages)
         == Gathered(Flatten(PagesRead(fetch, cursor, page, maxPages)), Complete)
    ensures |PagesRead(fetch, cursor, page, maxPages)| == if page < maxPages then maxPages - page else 0
    decreases maxPages - page
  {
    if page < maxPages {
      var next := fetch(page, cursor).next.value;
      EndlessCursorsEnd(fetch, next, page + 1, maxPages);
      var pages := PagesRead(fetch, cursor, page, maxPages);
      assert pages[1..] == PagesRead(fetch, next, page + 1, maxPages);
    }
  }

  lemma {:induction false} RepeatedCursor<T(!new), C(!new)>(fetch: Fetch<T, C>, cursor: C, items: seq<T>,
                                                            page: nat, maxPages: nat)
    requires NeverEnds(fetch) && forall k :: fetch(k, cursor) == Page(items, Some(cursor))
    ensures forall i :: 0 <= i < |PagesRead(fetch, cursor, page, maxPages)| ==>
              PagesRead(fetch, cursor, page, maxPages)[i] == items
    decreases maxPages - page
  {
    if page < maxPages { RepeatedCursor(fetch, cursor, items, page + 1, maxPages); }
  }

  // ----- The calls of a loop -----

  // All calls that one loop makes, with the cursors they are made with and the pages they bring, and how
  // the loop ends.
  datatype Talk<+T, +C> = Talk(cursors: seq<C>, pages: seq<seq<T>>, end: End)

  // The talk of a loop that begins with call number page and this cursor: each call is made with the
  // cursor that the reply before it handed out; the last one is denied, breaks, is the last page, or
  // reaches the limit.
  ghost predicate IsTalk<T(!new), C(!new)>(fetch: Fetch<T, C>, cursor: C, page: nat, maxPages: nat, t: Talk<T, C>) {
    var n := |t.cursors|;
    && page + n <= maxPages && |t.pages| == (if t.end == Complete then n else n - 1)
    && (n > 0 ==> t.cursors[0] == cursor)
    && (forall k: nat :: k < |t.pages| ==>
          fetch(page + k, t.cursors[k]).Page? && fetch(page + k, t.cursors[k]).items == t.pages[k])
    && (forall k: nat :: k + 1 < n ==> fetch(page + k, t.cursors[k]).next == Some(t.cursors[k + 1]))
    && match t.end
       case Complete => page + n == maxPages || (n > 0 && fetch(page + n - 1, t.cursors[n - 1]).next == None)
       case NoAccess => fetch(page + n - 1, t.cursors[n - 1]) == Denied
       case Error => fetch(page + n - 1, t.cursors[n - 1]) == Broken
  }

  // The rest of a talk after its first call.
  function Later<T, C>(t: Talk<T, C>): Talk<T, C>
    requires t.cursors != [] && t.pages != []
  {
    Talk(t.cursors[1..], t.pages[1..], t.end)
  }

  lemma LaterIsTalk<T(!new), C(!new)>(fetch: Fetch<T, C>, cursor: C, page: nat, maxPages: nat, t: Talk<T, C>)
    requires IsTalk(fetch, cursor, page, maxPages, t) && |t.cursors| > 1
    ensures t.pages != [] && IsTalk(fetch, t.cursors[1], page + 1, maxPages, Later(t))
  {
    var u := Later(t);
    forall k: nat | k < |u.pages|
      ensures fetch(page + 1 + k, u.cursors[k]).Page? && fetch(page + 1 + k, u.cursors[k]).items == u.pages[k]
    {
      assert fetch(page + (k + 1), t.cursors[k + 1]).Page? && u.pages[k] == t.pages[k + 1];
    }
    forall k: nat | k + 1 < |u.cursors|
      ensures fetch(page + 1 + k, u.cursors[k]).next == Some(u.cursors[k + 1])
    {
      assert fetch(page + (k + 1), t.cursors[k + 1]).next == Some(t.cursors[k + 2]);
    }
  }

  // What a loop brings in is the pages of its talk, one after the other, and how the talk ends.
  lemma {:induction false} GatherIsTheTalk<T(!new), C(!new)>(fetch: Fetch<T, C>, cursor: C, page: nat,
                                                             maxPages: nat, t: Talk<T, C>)
    requires IsTalk(fetch, cursor, page, maxPages, t)
    ensures Gather(fetch, cursor, page, maxPages) == Gathered(Flatten(t.pages), t.end)
    decreases |t.cursors|
  {
    if |t.cursors| > 1 {
      LaterIsTalk(fetch, cursor, page, maxPages, t);
      hide IsTalk;
      GatherIsTheTalk(fetch, t.cursors[1], page + 1, maxPages, Later(t));
    } else if t.pages != [] {
      assert t.pages == [t.pages[0]] && Flatten(t.pages[1..]) == [];
      assert t.pages[0] + [] == t.pages[0];
    }
  }

  // Every server has such a talk.
  ghost function TalkOf<T(!new), C(!new)>(fetch: Fetch<T, C>, cursor: C, page: nat, maxPages: nat): (t: Talk<T, C>)
    requires page <= maxPages
    ensures IsTalk(fetch, cursor, page, maxPages, t)
    decreases maxPages - page
  {
    if page == maxPages then Talk([], [], Complete)
    else
      match fetch(page, cursor)
      case Broken => Talk([cursor], [], Error)
      case Denied => Talk([cursor], [], NoAccess)
      case Page(items, next) =>
        if next == None || page + 1 == maxPages then Talk([cursor], [items], Complete)
        else
          var u := TalkOf(fetch, next.value, page + 1, maxPages);
          First(fetch, cursor, page, maxPages, items, u);
          Talk([cursor] + u.cursors, [items] + u.pages, u.end)
  }

  lemma First<T(!new), C(!new)>(fetch: Fetch<T, C>, cursor: C, page: nat, maxPages: nat, items: seq<T>, u: Talk<T, C>)
    requires page + 1 < maxPages && fetch(page, cursor).Page? && fetch(page, cursor).items == items
    requires fetch(page, cursor).next.Some? && IsTalk(fetch, fetch(page, cursor).next.value, page + 1, maxPages, u)
    ensures IsTalk(fetch, cursor, page, maxPages, Talk([cursor] + u.cursors, [items] + u.pages, u.end))
  {
    var t := Talk([cursor] + u.cursors, [items] + u.pages, u.end);
    forall k: nat | k < |t.pages|
      ensures fetch(page + k, t.cursors[k]).Page? && fetch(page + k, t.cursors[k]).items == t.pages[k]
    {
      if k > 0 { assert fetch(page + 1 + (k - 1), u.cursors[k - 1]).items == u.pages[k - 1]; }
    }
    forall k: nat | k + 1 < |t.cursors|
      ensures fetch(page + k, t.cursors[k]).next == Some(t.cursors[k + 1])
    {
      if k > 0 { assert fetch(page + 1 + (k - 1), u.cursors[k - 1]).next == Some(u.cursors[k]); }
    }
  }
}
