/** The receive reorder buffer of a block ack agreement (section 9.10.4 of IEEE 802.11). */
module Reorder {

  type Packet = seq<bv8>

  /** A fragment: 12 bits of sequence number and 4 bits of fragment number, and whether more follow. */
  datatype Mpdu = Mpdu(seqControl: nat, moreFragments: bool, packet: Packet)

  const NUMBERS := 4096

  const CONTROLS := 65536

  const WINDOW := 2048

  // ---------- Storing and releasing, on values ----------

  /** The sort key of a sequence control: circular, from the sequence number that follows the end of
      the window. */
  function Key(seqControl: nat, endSequence: nat): nat
    requires endSequence < NUMBERS
  {
    (seqControl / 16 + (NUMBERS - 1 - endSequence)) % NUMBERS * 16 + seqControl % 16
  }

  function EndSequence(start: nat): (e: nat)
    ensures e < NUMBERS
  {
    (start + WINDOW - 1) % NUMBERS
  }

  /** How many buffered fragments sort before a key. */
  function Position(buffer: seq<Mpdu>, key: nat, endSequence: nat): (k: nat)
    requires endSequence < NUMBERS
    ensures k <= |buffer|
  {
    if buffer == [] || Key(buffer[0].seqControl, endSequence) >= key then 0
    else 1 + Position(buffer[1..], key, endSequence)
  }

  function InsertedAt<T>(s: seq<T>, k: nat, x: T): seq<T>
    requires k <= |s|
  {
    s[..k] + [x] + s[k..]
  }

  function Stored(start: nat, buffer: seq<Mpdu>, m: Mpdu): seq<Mpdu> {
    InsertedAt(buffer, Position(buffer, Key(m.seqControl, EndSequence(start)), EndSequence(start)), m)
  }

  /** The sequence control expected after a fragment, in sixteen bits. */
  function NextGuard(guard: nat, moreFragments: bool): (g: nat)
    ensures g < CONTROLS
  {
    if moreFragments then (guard + 1) % CONTROLS else (guard + 16) / 16 * 16 % CONTROLS
  }

  /** Where the scan for complete MSDUs stands: the fragments passed, those of them up to the end of
      the last complete MSDU, and the sequence control expected next. */
  datatype Scan = Scan(passed: nat, complete: nat, guard: nat)

  function Turned(s: Scan, m: Mpdu): (r: Scan)
    ensures r.passed == s.passed + 1 && (s.complete <= s.passed ==> s.complete <= r.complete <= r.passed)
  {
    Scan(s.passed + 1, if m.moreFragments then s.complete else s.passed + 1, NextGuard(s.guard, m.moreFragments))
  }

  function Scanned(buffer: seq<Mpdu>, s: Scan): (r: Scan)
    requires s.complete <= s.passed <= |buffer|
    ensures r.complete <= r.passed <= |buffer| && s.passed <= r.passed && s.complete <= r.complete
    decreases |buffer| - s.passed
  {
    if s.passed == |buffer| || s.guard != buffer[s.passed].seqControl then s
    else Scanned(buffer, Turned(s, buffer[s.passed]))
  }

  function ScanFrom(start: nat, buffer: seq<Mpdu>): (r: Scan)
    ensures r.complete <= r.passed <= |buffer|
  {
    Scanned(buffer, Scan(0, 0, start * 16 % CONTROLS))
  }

  /** The window start, the buffer, and what has been forwarded up. */
  datatype Receiver = Receiver(start: nat, buffer: seq<Mpdu>, delivered: seq<Mpdu>)

  function Arrived(r: Receiver, m: Mpdu): Receiver {
    r.(buffer := Stored(r.start, r.buffer, m))
  }

  function Released(r: Receiver): Receiver {
    var s := ScanFrom(r.start, r.buffer);
    Receiver(s.guard / 16 % NUMBERS, r.buffer[s.complete..], r.delivered + r.buffer[..s.complete])
  }

  // ---------- The class ----------

  class ReorderBuffer {
    var start: nat
    var buffer: seq<Mpdu>
    var delivered: seq<Mpdu>

    ghost function View(): Receiver
      reads this
    {
      Receiver(start, buffer, delivered)
    }

    constructor (start: nat)
      ensures View() == Receiver(start, [], [])
    {
      this.start, buffer, delivered := start, [], [];
    }

    method StoreMpdu(m: Mpdu)
      modifies this
      ensures View() == Arrived(old(View()), m)
    {
      var endSequence := EndSequence(start);
      var mapped := Key(m.seqControl, endSequence);
      var i := 0;
      while i < |buffer| && Key(buffer[i].seqControl, endSequence) < mapped
        invariant i <= |buffer| && Position(buffer, mapped, endSequence) == i
                    + Position(buffer[i..], mapped, endSequence)
      {
        i := i + 1;
      }
      buffer := buffer[..i] + [m] + buffer[i..];
    }

    method RxCompleteUntilFirstLost()
      modifies this
      ensures View() == Released(old(View()))
    {
      hide NextGuard;
      var guard: nat := start * 16 % CONTROLS;
      var lastComplete, i := 0, 0;
      while i < |buffer| && guard == buffer[i].seqControl
        invariant lastComplete <= i <= |buffer| && buffer == old(buffer) && start == old(start)
        invariant Scanned(buffer, Scan(i, lastComplete, guard)) == ScanFrom(start, buffer)
        invariant delivered == old(delivered) + buffer[..lastComplete]
      {
        var more := buffer[i].moreFragments;
        if !more {
          ForwardUp(lastComplete, i);
          assert buffer[..lastComplete] + buffer[lastComplete..i + 1] == buffer[..i + 1];
          lastComplete := i + 1;
        }
        guard := NextGuard(guard, more);
        i := i + 1;
      }
      start := guard / 16 % NUMBERS;
      buffer := buffer[lastComplete..];
    }

    /** Forwards the fragments of a complete MSDU. */
    method ForwardUp(first: nat, last: nat)
      requires first <= last < |buffer|
      modifies `delivered
      ensures delivered == old(delivered) + buffer[first..last + 1]
    {
      var k := first;
      while k != last
        invariant first <= k <= last && delivered == old(delivered) + buffer[first..k]
        decreases last - k
      {
        delivered := delivered + [buffer[k]];
        k := k + 1;
      }
      delivered := delivered + [buffer[k]];
    }
  }

  // ---------- The sender's stream ----------

  /** The fragments of each MSDU, numbered without bound. */
  type Stream = nat -> seq<Packet>

  ghost predicate AtMostSixteen(stream: Stream) {
    forall n :: 1 <= |stream(n)| <= 16
  }

  /** A fragment is designated by a id: sixteen times the number of its MSDU, plus its own. */
  ghost predicate IsFragment(stream: Stream, id: nat) {
    id % 16 < |stream(id / 16)|
  }

  ghost function MpduOf(stream: Stream, id: nat): Mpdu
    requires IsFragment(stream, id)
  {
    Mpdu(id % CONTROLS, id % 16 + 1 < |stream(id / 16)|, stream(id / 16)[id % 16])
  }

  ghost predicate AreFragments(stream: Stream, ids: seq<nat>) {
    forall k | 0 <= k < |ids| :: IsFragment(stream, ids[k])
  }

  ghost function Mpdus(stream: Stream, ids: seq<nat>): (ms: seq<Mpdu>)
    requires AreFragments(stream, ids)
    ensures |ms| == |ids| && forall k | 0 <= k < |ms| :: ms[k] == MpduOf(stream, ids[k])
  {
    seq(|ids|, k requires 0 <= k < |ids| => MpduOf(stream, ids[k]))
  }

  ghost predicate Ascending(ids: seq<nat>) {
    forall i, j | 0 <= i < j < |ids| :: ids[i] < ids[j]
  }

  ghost predicate InWindow(start: nat, id: nat) {
    start * 16 <= id < (start + WINDOW) * 16
  }

  /** The buffer holds the given fragments in the order of their MSDUs, all in the window. */
  ghost predicate Holds(stream: Stream, start: nat, ids: seq<nat>, r: Receiver) {
    && r.start == start % NUMBERS
    && AreFragments(stream, ids) && r.buffer == Mpdus(stream, ids)
    && Ascending(ids) && forall k | 0 <= k < |ids| :: InWindow(start, ids[k])
  }

  // ---------- Storing keeps the circular order ----------

  lemma SplitId(id: nat)
    ensures id % CONTROLS / 16 == id / 16 % NUMBERS && id % CONTROLS % 16 == id % 16
  {
    var n, q := id / 16, id / CONTROLS;
    assert id == q * CONTROLS + id % CONTROLS;
    assert n == q * NUMBERS + id % CONTROLS / 16;
  }

  lemma {:induction false} ModPlus(a: nat, b: nat, m: nat)
    requires m > 0 && b < m
    ensures (a + b) % m == if a % m + b < m then a % m + b else a % m + b - m
  {
    var q := a / m;
    assert a + b == q * m + (a % m + b);
    if a % m + b < m {
      ModUnique(a + b, q, a % m + b, m);
    } else {
      ModUnique(a + b, q + 1, a % m + b - m, m);
    }
  }

  lemma ModUnique(x: nat, q: nat, r: nat, m: nat)
    requires x == q * m + r && r < m
    ensures x % m == r && x / m == q
  {
    var d := x / m - q;
    assert d * m == r - x % m;
    MulBound(d, m);
  }

  lemma MulBound(d: int, m: int)
    requires m > 0
    ensures d >= 1 ==> d * m >= m
    ensures d <= -1 ==> d * m <= -m
  {
  }

  /** In the window the sort key is the distance from the window start, shifted by half the circle. */
  lemma KeyIsDistance(start: nat, id: nat)
    requires InWindow(start, id)
    ensures Key(id % CONTROLS, EndSequence(start % NUMBERS)) == id - start * 16 + WINDOW * 16
  {
    SplitId(id);
    var n := id / 16;
    assert id == n * 16 + id % 16;
    var a := start % NUMBERS;
    ModPlus(start, n - start, NUMBERS);
    assert start + (n - start) == n;
    ModPlus(a, WINDOW - 1, NUMBERS);
  }

  lemma {:induction false} PositionIs(stream: Stream, start: nat, ids: seq<nat>, id: nat)
    requires AreFragments(stream, ids) && Ascending(ids) && forall k | 0 <= k < |ids| :: InWindow(start, ids[k])
    requires InWindow(start, id)
    ensures var e := EndSequence(start % NUMBERS);
            var k := Position(Mpdus(stream, ids), Key(id % CONTROLS, e), e);
            && k <= |ids|
            && (forall j | 0 <= j < k :: ids[j] < id)
            && (forall j | k <= j < |ids| :: id <= ids[j])
  {
    hide Key;
    KeyIsDistance(start, id);
    if ids == [] {
    } else {
      KeyIsDistance(start, ids[0]);
      assert Mpdus(stream, ids)[1..] == Mpdus(stream, ids[1..]);
      PositionIs(stream, start, ids[1..], id);
    }
  }

  /** A new fragment in the window is put in its place: the buffer stays sorted around the circle. */
  lemma StoredSorted(stream: Stream, start: nat, ids: seq<nat>, r: Receiver, id: nat) returns (k: nat)
    requires Holds(stream, start, ids, r) && IsFragment(stream, id) && InWindow(start, id) && id !in ids
    ensures k <= |ids| && Holds(stream, start, InsertedAt(ids, k, id), Arrived(r, MpduOf(stream, id)))
  {
    hide Position, Key, EndSequence;
    PositionIs(stream, start, ids, id);
    var e := EndSequence(r.start);
    k := Position(r.buffer, Key(id % CONTROLS, e), e);
    var all := InsertedAt(ids, k, id);
    hide InWindow, IsFragment;
    forall j | 0 <= j < |all|
      ensures InWindow(start, all[j]) && IsFragment(stream, all[j])
    {
      assert all[j] == if j < k then ids[j] else if j == k then id else ids[j - 1];
    }
    InsertedAscends(ids, k, id);
    InsertedMpdus(stream, ids, k, id);
  }

  lemma InsertedAscends(ids: seq<nat>, k: nat, id: nat)
    requires Ascending(ids) && k <= |ids|
    requires (forall j | 0 <= j < k :: ids[j] < id) && (forall j | k <= j < |ids| :: id < ids[j])
    ensures Ascending(InsertedAt(ids, k, id))
  {
  }

  lemma InsertedMpdus(stream: Stream, ids: seq<nat>, k: nat, id: nat)
    requires AreFragments(stream, ids) && k <= |ids| && IsFragment(stream, id)
    requires AreFragments(stream, InsertedAt(ids, k, id))
    ensures InsertedAt(Mpdus(stream, ids), k, MpduOf(stream, id)) == Mpdus(stream, InsertedAt(ids, k, id))
  {
    hide MpduOf;
  }

  // ---------- Releasing delivers whole MSDUs in order ----------

  /** The fragment after a given one. */
  ghost function NextId(stream: Stream, id: nat): nat {
    if id % 16 + 1 < |stream(id / 16)| then id + 1 else (id / 16 + 1) * 16
  }

  /** All fragments of MSDU n from number f on, and of the MSDUs from lo up to hi. */
  ghost function FragmentsOf(stream: Stream, n: nat): seq<nat> {
    seq(|stream(n)|, f requires 0 <= f => n * 16 + f)
  }

  ghost function AllFragments(stream: Stream, lo: nat, hi: nat): (ids: seq<nat>)
    requires lo <= hi
    decreases hi - lo
  {
    if lo == hi then [] else AllFragments(stream, lo, hi - 1) + FragmentsOf(stream, hi - 1)
  }

  lemma NextParts(stream: Stream, id: nat)
    requires AtMostSixteen(stream) && IsFragment(stream, id)
    ensures var more, next := id % 16 + 1 < |stream(id / 16)|, NextId(stream, id);
            && next / 16 == (if more then id / 16 else id / 16 + 1)
            && next % 16 == (if more then id % 16 + 1 else 0)
    ensures IsFragment(stream, NextId(stream, id)) && id < NextId(stream, id) <= id + 16
  {
    var more, next := id % 16 + 1 < |stream(id / 16)|, NextId(stream, id);
    assert |stream(id / 16)| <= 16 && |stream(id / 16 + 1)| >= 1;
    if more {
      ModUnique(next, id / 16, id % 16 + 1, 16);
    } else {
      ModUnique(next, id / 16 + 1, 0, 16);
    }
  }

  lemma NextMsdu(n: nat)
    ensures (n % NUMBERS + 1) * 16 % CONTROLS == (n + 1) * 16 % CONTROLS
  {
    var q := n / NUMBERS;
    assert (n + 1) * 16 == q * CONTROLS + (n % NUMBERS + 1) * 16;
    if n % NUMBERS + 1 == NUMBERS {
      ModUnique((n + 1) * 16, q + 1, 0, CONTROLS);
    } else {
      ModUnique((n + 1) * 16, q, (n % NUMBERS + 1) * 16, CONTROLS);
    }
  }

  lemma NextGuardIs(stream: Stream, id: nat)
    requires IsFragment(stream, id)
    ensures NextGuard(id % CONTROLS, MpduOf(stream, id).moreFragments) == NextId(stream, id) % CONTROLS
  {
    if id % 16 + 1 < |stream(id / 16)| {
      ModPlus(id, 1, CONTROLS);
    } else {
      SplitId(id);
      NextMsdu(id / 16);
      var g := id % CONTROLS;
      assert (g + 16) / 16 == g / 16 + 1;
    }
  }

  /** The scan after some steps: it expects fragment `next`, has passed all fragments from the window
      start up to it, and the complete ones are those of the MSDUs before it. */
  ghost predicate Passed(stream: Stream, start: nat, ids: seq<nat>, s: Scan, next: nat) {
    && s.complete <= s.passed <= |ids| && s.guard == next % CONTROLS
    && start * 16 <= next <= (start + WINDOW) * 16 && IsFragment(stream, next)
    && next == (if s.passed == 0 then start * 16 else NextId(stream, ids[s.passed - 1]))
    && ids[..s.complete] == AllFragments(stream, start, next / 16)
    && ids[s.complete..s.passed] == FragmentsOf(stream, next / 16)[..next % 16]
  }

  lemma CongruentEqual(a: nat, b: nat)
    requires a % CONTROLS == b % CONTROLS && a < b + CONTROLS && b < a + CONTROLS
    ensures a == b
  {
  }

  /** No fragment lies between a fragment and the next one. */
  lemma NothingBetween(stream: Stream, id: nat, other: nat)
    requires AtMostSixteen(stream) && IsFragment(stream, id) && IsFragment(stream, other) && id < other
    ensures NextId(stream, id) <= other
  {
  }

  lemma ScanStarts(stream: Stream, start: nat, ids: seq<nat>)
    requires AtMostSixteen(stream)
    ensures Passed(stream, start, ids, Scan(0, 0, start % NUMBERS * 16 % CONTROLS), start * 16)
  {
    SplitId(start * 16);
    assert start * 16 / 16 == start;
  }

  lemma ScanTurn(stream: Stream, start: nat, ids: seq<nat>, s: Scan, next: nat)
    requires AtMostSixteen(stream) && AreFragments(stream, ids)
    requires Passed(stream, start, ids, s, next) && s.passed < |ids| && ids[s.passed] == next && InWindow(start, next)
    ensures Passed(stream, start, ids, Turned(s, MpduOf(stream, next)), NextId(stream, next))
  {
    hide NextId, NextGuard;
    NextGuardIs(stream, next);
    NextParts(stream, next);
    var n, f := next / 16, next % 16;
    var fragments := FragmentsOf(stream, n);
    RunGrows(ids, s.complete, s.passed, fragments, f, next);
    if f + 1 == |fragments| {
      assert ids[..s.passed + 1] == ids[..s.complete] + ids[s.complete..s.passed + 1];
      assert fragments[..f + 1] == fragments;
    }
  }

  lemma RunGrows(ids: seq<nat>, lo: nat, hi: nat, fragments: seq<nat>, f: nat, next: nat)
    requires lo <= hi < |ids| && f < |fragments| && ids[lo..hi] == fragments[..f] && ids[hi] == next == fragments[f]
    ensures ids[lo..hi + 1] == fragments[..f + 1]
  {
    assert ids[lo..hi + 1] == ids[lo..hi] + [next];
  }

  /** The buffered fragment the scan looks at is the expected one if the sequence controls agree;
      otherwise the expected one is not buffered. */
  lemma ExpectedOrMissing(stream: Stream, start: nat, ids: seq<nat>, s: Scan, next: nat)
    requires AtMostSixteen(stream) && AreFragments(stream, ids) && Ascending(ids)
    requires forall k | 0 <= k < |ids| :: InWindow(start, ids[k])
    requires Passed(stream, start, ids, s, next)
    ensures s.passed < |ids| && s.guard == ids[s.passed] % CONTROLS ==> ids[s.passed] == next
    ensures s.passed == |ids| || s.guard != ids[s.passed] % CONTROLS ==> next !in ids
  {
    hide AllFragments, FragmentsOf, NextId;
    if s.passed < |ids| {
      assert InWindow(start, ids[s.passed]);
      if s.passed > 0 {
        NothingBetween(stream, ids[s.passed - 1], ids[s.passed]);
      }
      if s.guard == ids[s.passed] % CONTROLS {
        CongruentEqual(ids[s.passed], next);
      }
    }
    if s.passed > 0 {
      NextIsAfter(stream, ids[s.passed - 1]);
    }
  }

  lemma NextIsAfter(stream: Stream, id: nat)
    ensures id < NextId(stream, id)
  {
  }

  /** The scan passes exactly the unbroken run of fragments from the window start on. */
  lemma {:induction false} ScanEnds(stream: Stream, start: nat, ids: seq<nat>, r: Receiver, s: Scan,
                                    next: nat) returns (end: nat)
    requires AtMostSixteen(stream) && Holds(stream, start, ids, r) && Passed(stream, start, ids, s, next)
    ensures Passed(stream, start, ids, Scanned(r.buffer, s), end) && end !in ids
    decreases |ids| - s.passed
  {
    ExpectedOrMissing(stream, start, ids, s, next);
    hide Passed, Turned, NextId, Ascending, AtMostSixteen, InWindow;
    InBounds(stream, start, ids, s, next);
    if s.passed < |ids| && s.guard == r.buffer[s.passed].seqControl {
      ScanTurn(stream, start, ids, s, next);
      end := ScanEnds(stream, start, ids, r, Turned(s, r.buffer[s.passed]), NextId(stream, next));
    } else {
      end := next;
    }
  }

  lemma InBounds(stream: Stream, start: nat, ids: seq<nat>, s: Scan, next: nat)
    requires Passed(stream, start, ids, s, next)
    ensures s.complete <= s.passed <= |ids|
  {
  }

  lemma {:induction false} AllAreFragments(stream: Stream, lo: nat, hi: nat)
    requires AtMostSixteen(stream) && lo <= hi
    ensures AreFragments(stream, AllFragments(stream, lo, hi))
    ensures forall k | 0 <= k < |AllFragments(stream, lo, hi)| :: AllFragments(stream, lo, hi)[k] < hi * 16
    decreases hi - lo
  {
    if lo < hi {
      AllAreFragments(stream, lo, hi - 1);
      var last := FragmentsOf(stream, hi - 1);
      forall f | 0 <= f < |last|
        ensures IsFragment(stream, last[f])
      {
        assert |stream(hi - 1)| <= 16;
        ModUnique((hi - 1) * 16 + f, hi - 1, f, 16);
      }
    }
  }

  /** MSDU n is buffered whole. */
  ghost predicate Whole(stream: Stream, ids: seq<nat>, n: nat) {
    forall id | id in FragmentsOf(stream, n) :: id in ids
  }

  /** What is left after the complete MSDUs lies in the window that starts with the next one. */
  lemma LeftInWindow(stream: Stream, start: nat, ids: seq<nat>, s: Scan, end: nat)
    requires AtMostSixteen(stream) && AreFragments(stream, ids) && Ascending(ids)
    requires forall k | 0 <= k < |ids| :: InWindow(start, ids[k])
    requires Passed(stream, start, ids, s, end)
    ensures start <= end / 16 && forall k | s.complete <= k < |ids| :: InWindow(end / 16, ids[k])
  {
    var n := end / 16;
    forall k | s.complete <= k < |ids|
      ensures n * 16 <= ids[k]
    {
      if k < s.passed {
        assert ids[k] == ids[s.complete..s.passed][k - s.complete];
      } else if s.passed > 0 {
        NothingBetween(stream, ids[s.passed - 1], ids[k]);
      } else {
        assert InWindow(start, ids[k]);
      }
    }
    assert forall k | 0 <= k < |ids| :: InWindow(start, ids[k]);
  }

  /** A release forwards whole MSDUs in consecutive order, from the window start on and as many as are
      complete, moves the window start past them, and leaves the other fragments buffered in order. */
  lemma ReleaseDeliversInOrder(stream: Stream, start: nat, ids: seq<nat>, r: Receiver) returns (hi: nat, rest: seq<nat>)
    requires AtMostSixteen(stream) && Holds(stream, start, ids, r)
    ensures start <= hi <= start + WINDOW && ids == AllFragments(stream, start, hi) + rest
    ensures AreFragments(stream, AllFragments(stream, start, hi))
    ensures Released(r).delivered == r.delivered + Mpdus(stream, AllFragments(stream, start, hi))
    ensures Holds(stream, hi, rest, Released(r)) && !Whole(stream, rest, hi)
  {
    hide Turned, Scanned, AtMostSixteen, Passed, Ascending, AllFragments, IsFragment, Whole;
    ScanStarts(stream, start, ids);
    var end := ScanEnds(stream, start, ids, r, Scan(0, 0, r.start * 16 % CONTROLS), start * 16);
    var s := ScanFrom(r.start, r.buffer);
    LeftInWindow(stream, start, ids, s, end);
    hi, rest := end / 16, ids[s.complete..];
    AllAreFragments(stream, start, hi);
    CompleteSplits(stream, start, ids, s, end);
    MpdusSplit(stream, ids, s.complete);
  }

  lemma MpdusSplit(stream: Stream, ids: seq<nat>, k: nat)
    requires AreFragments(stream, ids) && k <= |ids|
    ensures AreFragments(stream, ids[..k]) && AreFragments(stream, ids[k..])
    ensures Mpdus(stream, ids)[..k] == Mpdus(stream, ids[..k]) && Mpdus(stream, ids)[k..] == Mpdus(stream, ids[k..])
  {
    hide MpduOf, IsFragment;
  }

  lemma MpdusJoin(stream: Stream, a: seq<nat>, b: seq<nat>)
    requires AreFragments(stream, a) && AreFragments(stream, b) && AreFragments(stream, a + b)
    ensures Mpdus(stream, a + b) == Mpdus(stream, a) + Mpdus(stream, b)
  {
    hide MpduOf, IsFragment;
  }

  /** What the scan found, in terms of MSDUs. */
  lemma CompleteSplits(stream: Stream, start: nat, ids: seq<nat>, s: Scan, end: nat)
    requires Passed(stream, start, ids, s, end) && Ascending(ids) && end !in ids
    ensures s.complete <= |ids| && ids[..s.complete] == AllFragments(stream, start, end / 16)
    ensures ids == AllFragments(stream, start, end / 16) + ids[s.complete..] && Ascending(ids[s.complete..])
    ensures s.guard / 16 % NUMBERS == end / 16 % NUMBERS && start <= end / 16 <= start + WINDOW
    ensures !Whole(stream, ids[s.complete..], end / 16)
  {
    hide AllFragments;
    SplitId(end);
    assert ids == ids[..s.complete] + ids[s.complete..];
    assert FragmentsOf(stream, end / 16)[end % 16] == end;
  }

  // ---------- Whole runs ----------

  datatype Step = Arrive(id: nat) | Release

  /** The receiver, the number of the MSDU its window starts with, and all that has arrived. */
  datatype Situation = Situation(start: nat, arrived: seq<nat>, r: Receiver)

  /** A fragment arrives within the window, and only once. */
  ghost predicate Allowed(stream: Stream, s: Situation, step: Step) {
    step.Arrive? ==> IsFragment(stream, step.id) && InWindow(s.start, step.id) && step.id !in s.arrived
  }

  /** How far around the circle a window start has moved. */
  function Advance(from: nat, to: nat): nat
    requires from < NUMBERS
  {
    (to + NUMBERS - from) % NUMBERS
  }

  ghost function Next(stream: Stream, s: Situation, step: Step): Situation
    requires Allowed(stream, s, step)
  {
    match step
    case Arrive(id) => Situation(s.start, s.arrived + [id], Arrived(s.r, MpduOf(stream, id)))
    case Release => Situation(s.start + Advance(s.r.start % NUMBERS, Released(s.r).start), s.arrived, Released(s.r))
  }

  ghost predicate Legal(stream: Stream, s: Situation, steps: seq<Step>)
    decreases |steps|
  {
    steps != [] ==> Allowed(stream, s, steps[0]) && Legal(stream, Next(stream, s, steps[0]), steps[1..])
  }

  ghost function Played(stream: Stream, s: Situation, steps: seq<Step>): Situation
    requires Legal(stream, s, steps)
    decreases |steps|
  {
    if steps == [] then s else Played(stream, Next(stream, s, steps[0]), steps[1..])
  }

  /** All fragments of the MSDUs before the window have been delivered in order; what else has arrived
      is buffered in order. */
  ghost predicate InOrder(stream: Stream, first: nat, s: Situation, held: seq<nat>) {
    && first <= s.start && Holds(stream, s.start, held, s.r)
    && AreFragments(stream, AllFragments(stream, first, s.start))
    && s.r.delivered == Mpdus(stream, AllFragments(stream, first, s.start))
    && multiset(AllFragments(stream, first, s.start)) + multiset(held) == multiset(s.arrived)
  }

  lemma {:induction false} AllFragmentsJoin(stream: Stream, lo: nat, mid: nat, hi: nat)
    requires lo <= mid <= hi
    ensures AllFragments(stream, lo, hi) == AllFragments(stream, lo, mid) + AllFragments(stream, mid, hi)
    decreases hi
  {
    if mid < hi {
      AllFragmentsJoin(stream, lo, mid, hi - 1);
    }
  }

  lemma AdvanceIs(start: nat, hi: nat)
    requires start <= hi <= start + WINDOW
    ensures Advance(start % NUMBERS, hi % NUMBERS) == hi - start
  {
    ModPlus(start, hi - start, NUMBERS);
    assert start + (hi - start) == hi;
  }

  lemma ArriveInOrder(stream: Stream, first: nat, s: Situation, held: seq<nat>, id: nat) returns (held': seq<nat>)
    requires AtMostSixteen(stream) && InOrder(stream, first, s, held) && Allowed(stream, s, Arrive(id))
    ensures InOrder(stream, first, Next(stream, s, Arrive(id)), held')
  {
    hide AllFragments, AtMostSixteen, Stored, Ascending, MpduOf, IsFragment, InWindow;
    assert id !in held by {
      assert id !in multiset(s.arrived);
    }
    var k := StoredSorted(stream, s.start, held, s.r, id);
    held' := InsertedAt(held, k, id);
    assert multiset(held') == multiset(held) + multiset{id} by {
      assert held == held[..k] + held[k..];
    }
  }

  lemma ReleaseInOrder(stream: Stream, first: nat, s: Situation, held: seq<nat>) returns (held': seq<nat>)
    requires AtMostSixteen(stream) && InOrder(stream, first, s, held)
    ensures InOrder(stream, first, Next(stream, s, Release), held')
  {
    hide AllFragments, AtMostSixteen, Released, Ascending, MpduOf, IsFragment, InWindow, Advance, Whole, AreFragments;
    var hi, rest := ReleaseDeliversInOrder(stream, s.start, held, s.r);
    AdvanceIs(s.start, hi);
    AllFragmentsJoin(stream, first, s.start, hi);
    AllAreFragments(stream, first, hi);
    held' := rest;
    MpdusJoin(stream, AllFragments(stream, first, s.start), AllFragments(stream, s.start, hi));
  }

  lemma NextInOrder(stream: Stream, first: nat, s: Situation, held: seq<nat>, step: Step) returns (held': seq<nat>)
    requires AtMostSixteen(stream) && InOrder(stream, first, s, held) && Allowed(stream, s, step)
    ensures InOrder(stream, first, Next(stream, s, step), held')
  {
    if step.Arrive? {
      held' := ArriveInOrder(stream, first, s, held, step.id);
    } else {
      held' := ReleaseInOrder(stream, first, s, held);
    }
  }

  lemma {:induction false} PlayedInOrder(stream: Stream, first: nat, s: Situation, held: seq<nat>,
                                         steps: seq<Step>) returns (held': seq<nat>)
    requires AtMostSixteen(stream) && InOrder(stream, first, s, held) && Legal(stream, s, steps)
    ensures InOrder(stream, first, Played(stream, s, steps), held')
    decreases |steps|
  {
    hide InOrder, Next;
    if steps == [] {
      held' := held;
    } else {
      var h := NextInOrder(stream, first, s, held, steps[0]);
      held' := PlayedInOrder(stream, first, Next(stream, s, steps[0]), h, steps[1..]);
    }
  }

  /** Over every run of in-window arrivals without repetition, whatever their order and whenever the
      buffer is released: what has been delivered is exactly the sender's stream from its first MSDU
      up to the window start, fragment by fragment; and the rest of what has arrived is still
      buffered, sorted around the circle. */
  lemma DeliveryIsInOrder(stream: Stream, first: nat, steps: seq<Step>)
    requires AtMostSixteen(stream)
    requires Legal(stream, Situation(first, [], Receiver(first % NUMBERS, [], [])), steps)
    ensures var s := Played(stream, Situation(first, [], Receiver(first % NUMBERS, [], [])), steps);
            exists held :: InOrder(stream, first, s, held)
  {
    var held := PlayedInOrder(stream, first, Situation(first, [], Receiver(first % NUMBERS, [], [])), [], steps);
  }
}
