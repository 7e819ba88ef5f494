/**
 The ring over pages: how many events fit, where each lies, the loop that copies
 unread events out page by page, and the loop that gives credits back in batches.
 */
module AioPages {
  import opened AioContext
  import AioRing

  const PAGE_SIZE := 4096
  const HEADER_SIZE := 32
  const EVENT_SIZE := 32

  // ----------------------------------------------------------- geometry

  /** Pages for a request of `n` events, with the two extra events of the source. */
  function PagesFor(n: nat): nat {
    (HEADER_SIZE + EVENT_SIZE * (n + 2) + PAGE_SIZE - 1) / PAGE_SIZE
  }

  function EventsIn(pages: nat): int {
    (PAGE_SIZE * pages - HEADER_SIZE) / EVENT_SIZE
  }

  /** The ring holds more than was asked for, with no page too many, and fills its pages but for the header. */
  lemma {:induction false} RingBigEnough(n: nat)
    ensures PagesFor(n) > 0 && EventsIn(PagesFor(n) - 1) < n + 2
    ensures EventsIn(PagesFor(n)) >= n + 2 && EventsIn(PagesFor(n)) == EVENTS_PER_PAGE * PagesFor(n) - EVENTS_OFFSET
  {}

  function PageOf(i: nat): nat {
    (i + EVENTS_OFFSET) / EVENTS_PER_PAGE
  }

  function PosOf(i: nat): nat {
    (i + EVENTS_OFFSET) % EVENTS_PER_PAGE
  }

  /** Where event `i` starts, counted in bytes from the start of the ring. */
  function ByteOf(i: nat): nat {
    PageOf(i) * PAGE_SIZE + PosOf(i) * EVENT_SIZE
  }

  /** Every event lies inside one page of the ring and behind the header. */
  lemma {:induction false} EventInside(i: nat, pages: nat)
    requires i < EVENTS_PER_PAGE * pages - EVENTS_OFFSET
    ensures PageOf(i) < pages && PosOf(i) * EVENT_SIZE + EVENT_SIZE <= PAGE_SIZE
    ensures HEADER_SIZE <= ByteOf(i) && ByteOf(i) + EVENT_SIZE <= PAGE_SIZE * pages
  {}

  /** No two events overlap. */
  lemma {:induction false} EventsApart(i: nat, j: nat)
    requires i < j
    ensures ByteOf(i) + EVENT_SIZE <= ByteOf(j)
  {}

  // ------------------------------------------------------------- reading

  ghost predicate Laid(pages: seq<seq<Event>>, slots: seq<Event>) {
    && |slots| == EVENTS_PER_PAGE * |pages| - EVENTS_OFFSET
    && (forall p :: 0 <= p < |pages| ==> |pages[p]| == EVENTS_PER_PAGE)
    && forall i :: 0 <= i < |slots| ==> PageOf(i) < |pages| && pages[PageOf(i)][PosOf(i)] == slots[i]
  }

  /** Two events in the same place of the same page are the same event. */
  lemma {:induction false} PlacesApart(i: nat, j: nat)
    requires PageOf(i) == PageOf(j) && PosOf(i) == PosOf(j)
    ensures i == j
  {}

  /** Stores an event where index `i` of the ring lies. */
  method StoreEvent(pages: seq<seq<Event>>, i: nat, ev: Event, ghost slots: seq<Event>)
    returns (stored: seq<seq<Event>>)
    requires Laid(pages, slots) && i < |slots|
    ensures Laid(stored, slots[i := ev])
  {
    var page, pos := PageOf(i), PosOf(i);
    stored := pages[page := pages[page][pos := ev]];
    forall j | 0 <= j < |slots| ensures PageOf(j) < |stored| && stored[PageOf(j)][PosOf(j)] == slots[i := ev][j] {
      if PageOf(j) == page && PosOf(j) == pos { PlacesApart(i, j); }
    }
  }

  /** The first `n` events from index `at` on, around the end of the ring. */
  function Around(slots: seq<Event>, at: nat, n: nat): (r: seq<Event>)
    requires at < |slots|
    ensures |r| == n
  {
    seq(n, i requires 0 <= i < n => slots[(at + i) % |slots|])
  }

  /** A run inside one page is a run of the ring. */
  lemma {:induction false} ChunkOfPage(pages: seq<seq<Event>>, slots: seq<Event>, at: nat, n: nat)
    requires Laid(pages, slots) && at + n <= |slots| && 0 < n <= EVENTS_PER_PAGE - PosOf(at)
    ensures PageOf(at) < |pages| && PosOf(at) + n <= |pages[PageOf(at)]| && pages[PageOf(at)][PosOf(at)..PosOf(at) + n] == slots[at..at + n]
  {}

  lemma {:induction false} AroundMore(slots: seq<Event>, h: nat, k: nat, n: nat, at: nat)
    requires h < |slots| && at == (h + k) % |slots| && at + n <= |slots|
    ensures Around(slots, h, k) + slots[at..at + n] == Around(slots, h, k + n)
  {
    var x, y := Around(slots, h, k) + slots[at..at + n], Around(slots, h, k + n);
    forall i | 0 <= i < k + n ensures x[i] == y[i] {
      if i >= k { AioRing.ModAdd(h + k, i - k, |slots|); }
    }
  }

  datatype Outcome = Copied(out: seq<Event>) | BadAddress

  /** The copy loop at index `at`, having copied `out` of the `total` events from `h` on. */
  ghost predicate Cursor(slots: seq<Event>, h: nat, total: nat, out: seq<Event>, at: int, end: int) {
    && h < |slots| && |out| <= total < |slots| && at == (h + |out|) % |slots| && end == (h + total) % |slots|
    && out == Around(slots, h, |out|)
  }

  lemma {:induction false} CursorEnd(slots: seq<Event>, h: nat, total: nat, out: seq<Event>, at: int, end: int)
    requires Cursor(slots, h, total, out, at, end)
    ensures at == end <==> |out| == total
  {
    AioRing.ModDistance(h + |out|, h + total, |slots|);
  }

  lemma {:induction false} CursorMove(slots: seq<Event>, h: nat, total: nat, out: seq<Event>, at: nat, end: int, n: nat)
    requires Cursor(slots, h, total, out, at, end) && |out| + n <= total && at + n <= |slots|
    ensures Cursor(slots, h, total, out + slots[at..at + n], (at + n) % |slots|, end)
  {
    AroundMore(slots, h, |out|, n, at);
    AioRing.ModShift(h + |out|, n, |slots|);
  }

  lemma {:induction false} CursorRoom(slots: seq<Event>, h: nat, total: nat, out: seq<Event>, at: nat, end: int,
                                      wanted: int)
    requires Cursor(slots, h, total, out, at, end) && |out| < total && wanted > 0 && |slots| > 1
    ensures var n := Chunk(at, end, |slots|, wanted); 0 < n <= wanted && |out| + n <= total && at + n <= |slots| && n <= EVENTS_PER_PAGE - PosOf(at)
  {
    AioRing.ChunkWithin(h + |out|, h + total, |slots|, wanted);
    ChunkInPage(at, end, |slots|, wanted);
  }

  lemma {:induction false} ChunkInPage(at: nat, end: int, nr: nat, wanted: int)
    ensures Chunk(at, end, nr, wanted) <= EVENTS_PER_PAGE - PosOf(at)
  {}

  lemma {:induction false} CursorChunk(pages: seq<seq<Event>>, slots: seq<Event>, h: nat, total: nat, out: seq<Event>,
                                       at: nat, end: int, wanted: int)
    requires Laid(pages, slots) && Cursor(slots, h, total, out, at, end) && |out| < total && wanted > 0 && |slots| > 1
    ensures var n := Chunk(at, end, |slots|, wanted);
            && 0 < n <= wanted && PageOf(at) < |pages| && PosOf(at) + n <= |pages[PageOf(at)]| && |out| + n <= total
            && Cursor(slots, h, total, out + pages[PageOf(at)][PosOf(at)..PosOf(at) + n], (at + n) % |slots|, end)
  {
    var n := Chunk(at, end, |slots|, wanted);
    CursorRoom(slots, h, total, out, at, end, wanted);
    ChunkOfPage(pages, slots, at, n);
    CursorMove(slots, h, total, out, at, end, n);
  }

  lemma {:induction false} CursorStart(slots: seq<Event>, head: nat, end: nat)
    requires |slots| > 0 && end < |slots|
    ensures var h, total := head % |slots|, InRing(head, end, |slots|); 0 <= total < |slots| && Cursor(slots, h, total, [], h, end)
  {
    var nr, h, total := |slots|, head % |slots|, InRing(head, end, |slots|);
    assert h % nr == h by { AioRing.ModSplit(h, 0, h, nr); }
    if h + total < nr { AioRing.ModAdd(h, total, nr); } else { AioRing.ModWrap(h, total, nr); }
  }

  /** How many of the `total` unread events a reader who wants `want` gets. */
  function Share(want: int, total: nat): nat {
    if want <= 0 then 0 else Min(want, total)
  }

  /** The loop over chunks, each inside one page; a fault, past `writable` events, abandons the copy. */
  method CopyEvents(pages: seq<seq<Event>>, nr: nat, h: nat, end: nat, want: int, writable: nat,
                    ghost slots: seq<Event>, ghost total: nat)
    returns (ok: bool, out: seq<Event>, at: nat)
    requires Laid(pages, slots) && |slots| == nr > 1 && Cursor(slots, h, total, [], h, end)
    ensures ok <==> Share(want, total) <= writable
    ensures ok ==> |out| == Share(want, total) && Cursor(slots, h, total, out, at, end)
  {
    ok, out, at := true, [], h;
    while |out| < want
      invariant ok && Cursor(slots, h, total, out, at, end) && (if want > 0 then |out| <= want else out == []) && |out| <= writable
      decreases total - |out|
    {
      CursorEnd(slots, h, total, out, at, end);
      if at == end { break; }
      CursorChunk(pages, slots, h, total, out, at, end, want - |out|);
      var n := Chunk(at, end, nr, want - |out|);
      if |out| + n > writable { return false, out, at; }
      out, at := out + pages[PageOf(at)][PosOf(at)..PosOf(at) + n], (at + n) % nr;
    }
  }

  /**
   Copies up to `want` unread events to a buffer that takes `writable`.  A copy
   that faults leaves the head where it was; otherwise the head moves past exactly the events handed out.
   */
  method ReadEventsRing(pages: seq<seq<Event>>, nr: nat, head0: nat, tail0: nat, want: int, writable: nat,
                        ghost slots: seq<Event>)
    returns (r: Outcome, head: nat)
    requires Laid(pages, slots) && |slots| == nr > 1
    ensures r == BadAddress <==> head0 != tail0 && Share(want, InRing(head0, tail0 % nr, nr)) > writable
    ensures r == BadAddress ==> head == head0
    ensures r.Copied? && head0 == tail0 ==> head == head0 && r.out == []
    ensures r.Copied? && head0 != tail0 ==>
              && |r.out| == Share(want, InRing(head0, tail0 % nr, nr))
              && r.out == Around(slots, head0 % nr, |r.out|) && head == (head0 % nr + |r.out|) % nr
  {
    if head0 == tail0 { return Copied([]), head0; }
    CursorStart(slots, head0, tail0 % nr);
    var ok, out, at := CopyEvents(pages, nr, head0 % nr, tail0 % nr, want, writable, slots, InRing(head0, tail0 % nr, nr));
    if !ok { return BadAddress, head0; }
    return Copied(out), at;
  }

  lemma {:induction false} HeadMoves(s: State, n: nat)
    requires AioRing.Fifo(s) && s.done + n <= |s.log|
    ensures (s.head + n) % s.nr == (s.done + n) % s.nr
  {
    AioRing.RoomLeft(s);
    if s.done % s.nr + n <= s.nr {
      AioRing.ModShift(s.done, n, s.nr);
    } else {
      AioRing.ModWrap(s.done, n, s.nr);
      AioRing.ModSplit(s.head + n, 1, s.head + n - s.nr, s.nr);
    }
  }

  lemma {:induction false} IndexUnread(s: State, i: nat)
    requires AioRing.Fifo(s) && s.done + i < |s.log|
    ensures (s.head + i) % s.nr == (s.done + i) % s.nr && s.slots[(s.done + i) % s.nr] == s.log[s.done + i]
  {
    HeadMoves(s, i);
  }

  /** In a ring that is a queue, the events around from the head on are the oldest unread ones. */
  lemma {:induction false} AroundUnread(s: State, n: nat)
    requires AioRing.Fifo(s) && s.done + n <= |s.log|
    ensures s.head % s.nr == s.head && Around(s.slots, s.head, n) == s.log[s.done..s.done + n]
  {
    AioRing.ModSplit(s.head, 0, s.head, s.nr);
    var x, y := Around(s.slots, s.head, n), s.log[s.done..s.done + n];
    forall i | 0 <= i < n ensures x[i] == y[i] { IndexUnread(s, i); }
  }

  lemma {:induction false} UnreadCount(s: State)
    requires AioRing.Fifo(s)
    ensures s.tail % s.nr == s.tail && InRing(s.head, s.tail, s.nr) == |s.log| - s.done
  {
    AioRing.RoomLeft(s);
    AioRing.ModDistance(s.done, |s.log|, s.nr);
    AioRing.ModSplit(s.tail, 0, s.tail, s.nr);
  }

  /**
   The read in a state of the queue: the reader gets the oldest events nobody has read
   yet, as many as it wants and there are, and the head moves past exactly those.
   */
  method ReadUnread(pages: seq<seq<Event>>, nr: nat, head0: nat, tail0: nat, want: int, writable: nat, ghost s: State)
    returns (r: Outcome, head: nat)
    requires AioRing.Fifo(s) && Laid(pages, s.slots) && nr == s.nr && head0 == s.head && tail0 == s.tail
    ensures r == BadAddress <==> Share(want, |s.log| - s.done) > writable
    ensures if r == BadAddress then head == head0
            else |r.out| == Share(want, |s.log| - s.done) && r.out == s.log[s.done..s.done + |r.out|] && head == (s.done + |r.out|) % nr
  {
    UnreadCount(s);
    AioRing.EmptyIff(s);
    r, head := ReadEventsRing(pages, nr, head0, tail0, want, writable, s.slots);
    if r.Copied? {
      AroundUnread(s, |r.out|);
      HeadMoves(s, |r.out|);
    }
  }

  // -------------------------------------------------------------- credits

  /** Gives `n` credits back to a CPU's counter and hands whole batches on. */
  method PutReqsAvailable(local0: nat, batch: nat, n: nat) returns (local: nat, moved: nat)
    requires batch >= 1
    ensures local + moved == local0 + n && local < 2 * batch
    ensures exists k: nat :: moved == k * batch
    ensures if local0 + n >= 2 * batch then local >= batch else moved == 0
  {
    local, moved := local0 + n, 0;
    ghost var k: nat := 0;
    while local >= batch * 2
      invariant local + moved == local0 + n && moved == k * batch && (k > 0 ==> local >= batch && local0 + n >= 2 * batch)
      decreases local
    {
      local, moved, k := local - batch, moved + batch, k + 1;
    }
  }
}
