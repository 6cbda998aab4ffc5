/**
 Path MTU discovery: a binary search that tolerates the loss of two probe packets.

 `Search` is the abstract search state, with the lost sizes as a short sorted list; `MtuFinder`
 is the object, which keeps them in a three-slot array padded with an invalid value.
 */
module Mtu {
  import opened Protocol

  const MAX_MTU_DIFF: int := 20
  const MAX_LOST_MTU_PROBES: int := 3

  // ---------------------------------------------------------------- abstract search

  datatype Search = Search(min: int, lost: seq<int>, lastProbeWasLost: bool)

  ghost predicate Sorted(s: seq<int>) {
    forall i, j :: 0 <= i < j < |s| ==> s[i] <= s[j]
  }

  /** One to three sorted sizes, none below `min` unless the search was over from the start. */
  ghost predicate WellFormed(s: Search) {
    && 0 <= s.min && 1 <= |s.lost| <= MAX_LOST_MTU_PROBES && Sorted(s.lost)
    && (forall i :: 0 <= i < |s.lost| ==> 0 <= s.lost[i])
    && (s.min <= s.lost[0] || |s.lost| == 1)
  }

  function MaxSize(s: Search): int
    requires |s.lost| > 0
  {
    s.lost[|s.lost| - 1]
  }

  predicate Done(s: Search)
    requires |s.lost| > 0
  {
    MaxSize(s) - s.min <= MAX_MTU_DIFF + 1
  }

  function ProbeSize(s: Search): (size: int)
    requires |s.lost| > 0
  {
    if s.lastProbeWasLost then (s.min + s.lost[0]) / 2 else (s.min + MaxSize(s)) / 2
  }

  /** Index of the first lost size above `size`. */
  function FirstAbove(lost: seq<int>, size: int): (i: int)
    ensures 0 <= i <= |lost|
    ensures forall j :: 0 <= j < i ==> lost[j] <= size
    ensures i < |lost| ==> size < lost[i]
  {
    if |lost| == 0 || size < lost[0] then 0 else 1 + FirstAbove(lost[1..], size)
  }

  /** The array view of the lost sizes: unused slots hold the invalid value. */
  function Slot(lost: seq<int>, i: int): int
    requires 0 <= i < MAX_LOST_MTU_PROBES
  {
    if i < |lost| then lost[i] else INVALID_BYTE_COUNT
  }

  /** The probe of `size` bytes arrived: it is the new minimum, and losses up to it were chance. */
  function Acked(s: Search, size: int): Search {
    var i := FirstAbove(s.lost, size);
    Search(size, if i < |s.lost| then s.lost[i..] else s.lost, false)
  }

  /** The probe of `size` bytes was lost; only the three smallest lost sizes are kept. */
  function Lost(s: Search, size: int): Search {
    var i := FirstAbove(s.lost, size);
    var lost := if i == |s.lost| then s.lost else s.lost[..i] + [size] + s.lost[i..];
    Search(s.min, if |lost| > MAX_LOST_MTU_PROBES then lost[..MAX_LOST_MTU_PROBES] else lost, true)
  }

  lemma ProbeInside(s: Search)
    requires WellFormed(s) && !Done(s)
    ensures 0 <= s.min <= ProbeSize(s) < MaxSize(s)
    ensures !s.lastProbeWasLost ==> s.min < ProbeSize(s)
  {
  }

  lemma AckedWellFormed(s: Search, size: int)
    requires WellFormed(s) && s.min <= size < MaxSize(s)
    ensures WellFormed(Acked(s, size))
    ensures MaxSize(Acked(s, size)) == MaxSize(s) && Acked(s, size).min >= s.min
  {
  }

  /** The lost size takes its place in the order; the largest falls off when all slots are taken. */
  lemma LostShape(s: Search, size: int)
    requires WellFormed(s) && s.min <= size < MaxSize(s)
    ensures var i, l, m := FirstAbove(s.lost, size), s.lost, Lost(s, size).lost;
            && i < |l| && |m| == Min(|l| + 1, MAX_LOST_MTU_PROBES)
            && Slot(m, 0) == (if i == 0 then size else Slot(l, 0))
            && Slot(m, 1) == (if i == 1 then size else if i < 1 then Slot(l, 0) else Slot(l, 1))
            && Slot(m, 2) == (if i == 2 then size else Slot(l, 1))
    ensures Lost(s, size).min == s.min && Lost(s, size).lastProbeWasLost
  {
    assert FirstAbove(s.lost, size) < |s.lost|;
  }

  lemma LostWellFormed(s: Search, size: int)
    requires WellFormed(s) && s.min <= size < MaxSize(s)
    ensures WellFormed(Lost(s, size))
    ensures MaxSize(Lost(s, size)) <= MaxSize(s)
  {
    hide Lost;
    LostShape(s, size);
  }

  // ---------------------------------------------------------------- termination

  function Bit(b: bool): nat { if b then 1 else 0 }

  /** How many of the three slots hold `v`. */
  function SlotsAt(lost: seq<int>, v: int): nat {
    Bit(Slot(lost, 0) == v) + Bit(Slot(lost, 1) == v) + Bit(Slot(lost, 2) == v)
  }

  /** How many of the three slots lie above `v`. */
  function SlotsAbove(lost: seq<int>, v: int): nat {
    Bit(Slot(lost, 0) > v) + Bit(Slot(lost, 1) > v) + Bit(Slot(lost, 2) > v)
  }

  /** `t` comes strictly before `s` in the lexicographic order that every resolved probe descends. */
  ghost predicate Closer(t: Search, s: Search)
    requires |t.lost| > 0 && |s.lost| > 0
  {
    || t.min > s.min
    || (t.min == s.min &&
        (|| MaxSize(t) < MaxSize(s)
         || (MaxSize(t) == MaxSize(s) &&
             (|| SlotsAt(t.lost, MaxSize(t)) < SlotsAt(s.lost, MaxSize(s))
              || (SlotsAt(t.lost, MaxSize(t)) == SlotsAt(s.lost, MaxSize(s)) &&
                  (|| SlotsAbove(t.lost, t.min) > SlotsAbove(s.lost, s.min)
                   || (SlotsAbove(t.lost, t.min) == SlotsAbove(s.lost, s.min) &&
                       (|| (!t.lastProbeWasLost && s.lastProbeWasLost)
                        || (t.lastProbeWasLost == s.lastProbeWasLost && |t.lost| > |s.lost|)))))))))
  }

  lemma AckedCloser(s: Search)
    requires WellFormed(s) && !Done(s)
    ensures Closer(Acked(s, ProbeSize(s)), s)
  {
    ProbeInside(s);
    AckedWellFormed(s, ProbeSize(s));
  }

  lemma LostCloser(s: Search)
    requires WellFormed(s) && !Done(s)
    ensures WellFormed(Lost(s, ProbeSize(s))) && Closer(Lost(s, ProbeSize(s)), s)
  {
    hide Lost;
    ProbeInside(s);
    LostShape(s, ProbeSize(s));
    LostWellFormed(s, ProbeSize(s));
  }

  // ---------------------------------------------------------------- accuracy

  /** A lost size that says something about a path that carries exactly the packets up to `mtu`. */
  predicate Genuine(v: int, mtu: int, ceiling: int) {
    v > mtu || v == ceiling
  }

  /** The lost sizes that were lost by chance. */
  function Chance(lost: seq<int>, mtu: int, ceiling: int): nat {
    Bit(|lost| > 0 && !Genuine(Slot(lost, 0), mtu, ceiling)) +
    Bit(|lost| > 1 && !Genuine(Slot(lost, 1), mtu, ceiling)) +
    Bit(|lost| > 2 && !Genuine(Slot(lost, 2), mtu, ceiling))
  }

  /** After `chance` chance losses on a path of the given MTU, searching up to `ceiling`. */
  ghost predicate OnTrack(s: Search, mtu: int, ceiling: int, chance: nat) {
    && WellFormed(s) && s.min <= mtu && s.min <= ceiling
    && (forall i :: 0 <= i < |s.lost| ==> s.lost[i] <= ceiling)
    && Chance(s.lost, mtu, ceiling) <= chance
    && (chance < MAX_LOST_MTU_PROBES ==> Genuine(MaxSize(s), mtu, ceiling))
  }

  lemma AckedOnTrack(s: Search, mtu: int, ceiling: int, chance: nat)
    requires OnTrack(s, mtu, ceiling, chance) && !Done(s) && ProbeSize(s) <= mtu
    ensures OnTrack(Acked(s, ProbeSize(s)), mtu, ceiling, chance)
  {
    ProbeInside(s);
    AckedWellFormed(s, ProbeSize(s));
  }

  lemma LostOnTrack(s: Search, mtu: int, ceiling: int, chance: nat)
    requires OnTrack(s, mtu, ceiling, chance) && !Done(s)
    ensures OnTrack(Lost(s, ProbeSize(s)), mtu, ceiling, chance + Bit(ProbeSize(s) <= mtu))
  {
    hide Lost;
    ProbeInside(s);
    LostShape(s, ProbeSize(s));
    LostWellFormed(s, ProbeSize(s));
  }

  /** With at most two chance losses, a finished search is within 21 bytes of the usable size. */
  lemma DoneIsAccurate(s: Search, mtu: int, ceiling: int, chance: nat)
    requires OnTrack(s, mtu, ceiling, chance) && Done(s) && chance < MAX_LOST_MTU_PROBES
    ensures Protocol.Min(mtu, ceiling) - (MAX_MTU_DIFF + 1) <= s.min <= Protocol.Min(mtu, ceiling)
  {
  }

  // ---------------------------------------------------------------- the search as a whole

  /** A probe is sent and resolved: it arrives unless the path does not carry it or it is dropped. */
  ghost function Resolve(s: Search, mtu: int, dropped: bool): Search
    requires |s.lost| > 0
  {
    if ProbeSize(s) <= mtu && !dropped then Acked(s, ProbeSize(s)) else Lost(s, ProbeSize(s))
  }

  /** The search after `k` probes, of which probe `i` is dropped when `drop(i)`. */
  ghost function Searched(s: Search, mtu: int, drop: nat -> bool, k: nat): (t: Search)
    requires |s.lost| > 0
    ensures |t.lost| > 0
  {
    if k == 0 then s
    else
      var t := Searched(s, mtu, drop, k - 1);
      LostNonEmpty(t, mtu, drop(k - 1));
      Resolve(t, mtu, drop(k - 1))
  }

  lemma LostNonEmpty(s: Search, mtu: int, dropped: bool)
    requires |s.lost| > 0
    ensures |Resolve(s, mtu, dropped).lost| > 0
  {
  }

  /** How many of the first `k` probes were lost although the path carries them. */
  ghost function ChanceLosses(s: Search, mtu: int, drop: nat -> bool, k: nat): nat
    requires |s.lost| > 0
  {
    if k == 0 then 0
    else ChanceLosses(s, mtu, drop, k - 1) + Bit(ProbeSize(Searched(s, mtu, drop, k - 1)) <= mtu && drop(k - 1))
  }

  lemma {:induction false} NoDropsNoChance(s: Search, mtu: int, drop: nat -> bool, k: nat)
    requires |s.lost| > 0 && forall i :: !drop(i)
    ensures ChanceLosses(s, mtu, drop, k) == 0
  {
    hide Searched, ProbeSize;
    if k > 0 {
      NoDropsNoChance(s, mtu, drop, k - 1);
    }
  }

  /** The search goes on for at least `k` probes. */
  ghost predicate OngoingFor(s: Search, mtu: int, drop: nat -> bool, k: nat)
    requires |s.lost| > 0
  {
    forall i :: 0 <= i < k ==> !Done(Searched(s, mtu, drop, i))
  }

  lemma LostBelowAll(s: Search, size: int)
    requires |s.lost| > 0 && size < s.lost[0]
    ensures Lost(s, size).lost ==
            if |s.lost| < MAX_LOST_MTU_PROBES then [size] + s.lost else ([size] + s.lost)[..MAX_LOST_MTU_PROBES]
    ensures Lost(s, size).min == s.min && Lost(s, size).lastProbeWasLost
  {
    assert s.lost[..0] + [size] + s.lost[0..] == [size] + s.lost;
  }

  /** A dropped probe counts as lost. */
  lemma DroppedIsLost(s: Search, mtu: int, drop: nat -> bool, k: nat)
    requires |s.lost| > 0 && drop(k)
    ensures var t := Searched(s, mtu, drop, k);
            && Searched(s, mtu, drop, k + 1) == Lost(t, ProbeSize(t))
            && ChanceLosses(s, mtu, drop, k + 1) == ChanceLosses(s, mtu, drop, k) + Bit(ProbeSize(t) <= mtu)
  {
    hide Lost, Acked;
  }

  /** If the first three probes are dropped, the first of them becomes the ceiling. */
  lemma ThreeDrops(start: int, max: int, mtu: int, drop: nat -> bool)
    requires 0 <= start && max - start > MAX_MTU_DIFF + 1 && drop(0) && drop(1) && drop(2)
    ensures var s := Search(start, [max], false);
            var p := (start + max) / 2;
            var q := (start + p) / 2;
            && Searched(s, mtu, drop, 0) == s
            && Searched(s, mtu, drop, 1) == Search(start, [p, max], true)
            && Searched(s, mtu, drop, 2) == Search(start, [q, p, max], true)
            && Searched(s, mtu, drop, 3) == Search(start, [(start + q) / 2, q, p], true)
            && (max <= mtu ==> ChanceLosses(s, mtu, drop, 3) == 3)
  {
    hide Lost, Searched, ChanceLosses;
    var s := Search(start, [max], false);
    var p := (start + max) / 2;
    var q := (start + p) / 2;
    NoProbes(s, mtu, drop);
    DroppedIsLost(s, mtu, drop, 0);
    LostBelowAll(s, p);
    DroppedIsLost(s, mtu, drop, 1);
    LostBelowAll(Search(start, [p, max], true), q);
    DroppedIsLost(s, mtu, drop, 2);
    LostBelowAll(Search(start, [q, p, max], true), (start + q) / 2);
  }

  lemma NoProbes(s: Search, mtu: int, drop: nat -> bool)
    requires |s.lost| > 0
    ensures Searched(s, mtu, drop, 0) == s && ChanceLosses(s, mtu, drop, 0) == 0
  {
  }

  lemma ResolveInside(s: Search, mtu: int, dropped: bool)
    requires WellFormed(s) && !Done(s)
    ensures var t := Resolve(s, mtu, dropped);
            WellFormed(t) && MaxSize(t) <= MaxSize(s) && s.min <= t.min <= MaxSize(s)
  {
    hide Lost, Acked;
    ProbeInside(s);
    AckedWellFormed(s, ProbeSize(s));
    LostWellFormed(s, ProbeSize(s));
    LostShape(s, ProbeSize(s));
    AckedMin(s, ProbeSize(s));
  }

  lemma AckedMin(s: Search, size: int)
    ensures Acked(s, size).min == size
  {
  }

  /** A search never gets above its ceiling, and the ceiling never rises. */
  lemma {:induction false} CeilingHolds(s: Search, mtu: int, drop: nat -> bool, j: nat, k: nat)
    requires |s.lost| > 0 && j <= k && OngoingFor(s, mtu, drop, k) && WellFormed(Searched(s, mtu, drop, j))
    requires Searched(s, mtu, drop, j).min <= MaxSize(Searched(s, mtu, drop, j))
    ensures var t := Searched(s, mtu, drop, k);
            && WellFormed(t) && MaxSize(t) <= MaxSize(Searched(s, mtu, drop, j))
            && t.min <= MaxSize(Searched(s, mtu, drop, j))
    decreases k
  {
    hide WellFormed, Resolve, MaxSize, Done;
    if j < k {
      CeilingHolds(s, mtu, drop, j, k - 1);
      ResolveInside(Searched(s, mtu, drop, k - 1), mtu, drop(k - 1));
    }
  }

  /**
   Two is the exact number of chance losses a search tolerates: if the first three probes are
   dropped, it ends more than 21 bytes below the ceiling, however much the path carries.
   */
  lemma ThreeChanceLossesMislead(start: int, max: int, mtu: int, drop: nat -> bool, n: nat)
    requires 0 <= start && max - start > MAX_MTU_DIFF + 1 && max <= mtu
    requires drop(0) && drop(1) && drop(2)
    requires var s := Search(start, [max], false);
             OngoingFor(s, mtu, drop, n) && Done(Searched(s, mtu, drop, n))
    ensures var s := Search(start, [max], false);
            n >= 3 && ChanceLosses(s, mtu, drop, 3) == 3 && Searched(s, mtu, drop, n).min < max - (MAX_MTU_DIFF + 1)
  {
    hide Searched, ChanceLosses;
    ThreeDrops(start, max, mtu, drop);
    CeilingHolds(Search(start, [max], false), mtu, drop, 3, n);
  }

  // ---------------------------------------------------------------- how many probes it takes

  /** The number of binary digits of `n`. */
  function Digits(n: nat): (k: nat) { if n == 0 then 0 else 1 + Digits(n / 2) }

  lemma {:induction false} DigitsMonotone(m: nat, n: nat)
    requires m <= n
    ensures Digits(m) <= Digits(n)
  {
    if m > 0 {
      DigitsMonotone(m / 2, n / 2);
    }
  }

  /** A lost size, or the largest one in place of a slot that is still free. */
  function Bound(s: Search, i: nat): int
    requires |s.lost| > 0
  {
    if i < |s.lost| then s.lost[i] else MaxSize(s)
  }

  /** A search on a path without chance losses: what was lost, the path does not carry. */
  ghost predicate Honest(s: Search, mtu: int, ceiling: int) {
    && WellFormed(s) && s.min <= mtu
    && forall i :: 0 <= i < |s.lost| ==> s.min < s.lost[i] <= ceiling && Genuine(s.lost[i], mtu, ceiling)
  }

  lemma HonestBounds(s: Search, mtu: int, ceiling: int)
    requires Honest(s, mtu, ceiling)
    ensures s.min < Bound(s, 0) <= Bound(s, 1) <= Bound(s, 2) == MaxSize(s)
    ensures !Done(s) && ProbeSize(s) <= mtu ==> ProbeSize(s) < Bound(s, 0)
  {
    if !Done(s) {
      ProbeInside(s);
    }
  }

  /** How far the three bounds are from the minimum, in digits. */
  function Room(s: Search): nat
    requires |s.lost| > 0 && s.min < Bound(s, 0) && s.min < Bound(s, 1) && s.min < Bound(s, 2)
  {
    Digits(Bound(s, 0) - s.min - 1) + Digits(Bound(s, 1) - s.min - 1) + Digits(Bound(s, 2) - s.min - 1)
  }

  /** Half way from `min` to `bound` there is one digit less to go, from either side. */
  lemma HalfWay(min: int, bound: int)
    requires min + 1 < bound
    ensures var p, n := (min + bound) / 2, Digits(bound - min - 1);
            min < p < bound && Digits(bound - p - 1) < n && Digits(p - min - 1) < n
  {
    var p, u := (min + bound) / 2, bound - min - 1;
    assert bound - p - 1 == u / 2 && p - min - 1 <= u / 2;
    DigitsMonotone(p - min - 1, u / 2);
  }

  /** A probe that arrives: the bounds stay, and the minimum comes closer. */
  lemma AckedRoom(s: Search, mtu: int, ceiling: int)
    requires Honest(s, mtu, ceiling) && !Done(s) && ProbeSize(s) <= mtu
    ensures var t := Acked(s, ProbeSize(s));
            && Honest(t, mtu, ceiling) && !t.lastProbeWasLost
            && t.min < Bound(t, 0) <= Bound(t, 1) <= Bound(t, 2) && s.min < Bound(s, 0) <= Bound(s, 1) <= Bound(s, 2)
            && Room(t) + Bit(!s.lastProbeWasLost) <= Room(s)
  {
    hide Digits;
    var p := ProbeSize(s);
    var t := Acked(s, p);
    HonestBounds(s, mtu, ceiling);
    ProbeInside(s);
    AckedWellFormed(s, p);
    assert FirstAbove(s.lost, p) == 0;
    assert t == Search(p, s.lost, false);
    HonestBounds(t, mtu, ceiling);
    DigitsMonotone(Bound(s, 0) - p - 1, Bound(s, 0) - s.min - 1);
    DigitsMonotone(Bound(s, 1) - p - 1, Bound(s, 1) - s.min - 1);
    DigitsMonotone(Bound(s, 2) - p - 1, Bound(s, 2) - s.min - 1);
    if !s.lastProbeWasLost {
      HalfWay(s.min, Bound(s, 2));
    }
  }

  /** A lost probe takes its place among the bounds; the largest one makes room for it. */
  lemma LostBounds(s: Search, mtu: int, ceiling: int)
    requires Honest(s, mtu, ceiling) && !Done(s)
    ensures var p, t := ProbeSize(s), Lost(s, ProbeSize(s));
            && |t.lost| > 0 && t.min == s.min && t.lastProbeWasLost
            && (|| (Bound(t, 0) == p && Bound(t, 1) == Bound(s, 0) && Bound(t, 2) == Bound(s, 1))
                || (Bound(t, 0) == Bound(s, 0) && Bound(t, 1) == p && Bound(t, 2) == Bound(s, 1))
                || (Bound(t, 0) == Bound(s, 0) && Bound(t, 1) == Bound(s, 1) && Bound(t, 2) == p))
  {
    hide Lost;
    ProbeInside(s);
    LostShape(s, ProbeSize(s));
  }

  /** A probe that does not: it takes the place of the largest bound. */
  lemma LostRoom(s: Search, mtu: int, ceiling: int)
    requires Honest(s, mtu, ceiling) && !Done(s) && ProbeSize(s) > mtu
    ensures var t := Lost(s, ProbeSize(s));
            && Honest(t, mtu, ceiling) && t.lastProbeWasLost
            && t.min < Bound(t, 0) <= Bound(t, 1) <= Bound(t, 2) && s.min < Bound(s, 0) <= Bound(s, 1) <= Bound(s, 2)
            && Room(t) + 1 <= Room(s)
  {
    hide Digits, Lost, Sorted, Genuine;
    var t := Lost(s, ProbeSize(s));
    HonestBounds(s, mtu, ceiling);
    LostBounds(s, mtu, ceiling);
    LostHonest(s, mtu, ceiling);
    HonestBounds(t, mtu, ceiling);
    HalfWay(s.min, if s.lastProbeWasLost then Bound(s, 0) else Bound(s, 2));
    DigitsMonotone(Bound(s, 0) - s.min - 1, Bound(s, 2) - s.min - 1);
  }

  lemma LostHonest(s: Search, mtu: int, ceiling: int)
    requires Honest(s, mtu, ceiling) && !Done(s) && ProbeSize(s) > mtu
    ensures Honest(Lost(s, ProbeSize(s)), mtu, ceiling)
  {
    hide Lost;
    ProbeInside(s);
    LostShape(s, ProbeSize(s));
    LostWellFormed(s, ProbeSize(s));
    var m := Lost(s, ProbeSize(s)).lost;
    forall i | 0 <= i < |m|
      ensures s.min < m[i] <= ceiling && Genuine(m[i], mtu, ceiling)
    {
      assert m[i] == Slot(m, i);
    }
  }

  /** Without chance losses, a search that goes on for `k` probes has come that much closer. */
  lemma {:induction false} ProbesTaken(start: int, max: int, mtu: int, drop: nat -> bool, k: nat)
    requires 0 <= start < max && start <= mtu && (forall i :: !drop(i))
    requires OngoingFor(Search(start, [max], false), mtu, drop, k)
    ensures var t := Searched(Search(start, [max], false), mtu, drop, k);
            && Honest(t, mtu, max) && t.min < Bound(t, 0) <= Bound(t, 1) <= Bound(t, 2)
            && 2 * Room(t) + Bit(t.lastProbeWasLost) + k <= 6 * Digits(max - start - 1)
  {
    hide Digits, Acked, Lost, Room, Bound, Honest;
    var s := Search(start, [max], false);
    if k == 0 {
      FirstRoom(start, max, mtu);
    } else {
      ProbesTaken(start, max, mtu, drop, k - 1);
      var t := Searched(s, mtu, drop, k - 1);
      if ProbeSize(t) <= mtu {
        AckedRoom(t, mtu, max);
      } else {
        LostRoom(t, mtu, max);
      }
    }
  }

  lemma FirstRoom(start: int, max: int, mtu: int)
    requires 0 <= start < max && start <= mtu
    ensures var s := Search(start, [max], false);
            && Honest(s, mtu, max) && start < Bound(s, 0) == Bound(s, 1) == Bound(s, 2) == max
            && Room(s) == 3 * Digits(max - start - 1)
  {
    hide Digits;
  }

  // ---------------------------------------------------------------- the object

  /** The valid prefix of the three slots. */
  function Used(slots: seq<int>): (r: seq<int>)
    requires |slots| == MAX_LOST_MTU_PROBES
  {
    if slots[0] == INVALID_BYTE_COUNT then []
    else if slots[1] == INVALID_BYTE_COUNT then slots[..1]
    else if slots[2] == INVALID_BYTE_COUNT then slots[..2]
    else slots
  }

  /** Unused slots come last. */
  ghost predicate Packed(slots: seq<int>) {
    && |slots| == MAX_LOST_MTU_PROBES
    && forall i :: 0 <= i < MAX_LOST_MTU_PROBES ==> slots[i] == Slot(Used(slots), i)
  }

  lemma AckedDrops(s: Search, size: int)
    requires WellFormed(s) && s.min <= size < MaxSize(s)
    ensures 0 <= size && 0 <= FirstAbove(s.lost, size) < |s.lost| <= MAX_LOST_MTU_PROBES
    ensures Acked(s, size) == Search(size, s.lost[FirstAbove(s.lost, size)..], false)
  {
  }

  lemma UsedAfterDrop(slots: seq<int>, j: int)
    requires Packed(slots) && 0 < j < |Used(slots)|
    ensures var t := slots[j..] + seq(j, _ => INVALID_BYTE_COUNT);
            Packed(t) && Used(t) == Used(slots)[j..]
  {
  }

  lemma UsedAfterInsert(slots: seq<int>, i: int, size: int)
    requires Packed(slots) && 0 <= size
    requires 0 <= i < |Used(slots)| && i == FirstAbove(Used(slots), size)
    ensures var t := (slots[..i] + [size] + slots[i..])[..MAX_LOST_MTU_PROBES];
            && Packed(t)
            && forall m: int, b: bool :: Used(t) == Lost(Search(m, Used(slots), b), size).lost
  {
  }

  class MtuFinder {
    var inFlight: int
    var min: int
    const lost: array<int>
    var lastProbeWasLost: bool
    /** Eight bits wide: it wraps around after 256 resets. */
    var generation: int

    ghost function State(): (s: Search)
      reads this, lost
      requires lost.Length == MAX_LOST_MTU_PROBES
    {
      Search(min, Used(lost[..]), lastProbeWasLost)
    }

    ghost predicate Valid()
      reads this, lost
    {
      && lost.Length == MAX_LOST_MTU_PROBES && Packed(lost[..]) && WellFormed(State())
      && (inFlight == INVALID_BYTE_COUNT || (!Done(State()) && min <= inFlight < MaxSize(State())))
      && 0 <= generation < 256
    }

    constructor (start: int, max: int)
      requires 0 <= start && 0 <= max
      ensures Valid() && fresh(lost)
      ensures State() == Search(start, [max], false)
      ensures inFlight == INVALID_BYTE_COUNT && generation == 0
    {
      inFlight, min, lastProbeWasLost, generation := INVALID_BYTE_COUNT, start, false, 0;
      lost := new int[MAX_LOST_MTU_PROBES];
      new;
      Init(start, max);
    }

    method Init(start: int, max: int)
      requires lost.Length == MAX_LOST_MTU_PROBES && 0 <= max
      modifies this`min, lost
      ensures min == start && lost[..] == [max, INVALID_BYTE_COUNT, INVALID_BYTE_COUNT]
    {
      min := start;
      for i := 0 to lost.Length
        invariant min == start
        invariant forall k :: 0 <= k < i ==> lost[k] == if k == 0 then max else INVALID_BYTE_COUNT
      {
        if i == 0 {
          lost[i] := max;
        } else {
          lost[i] := INVALID_BYTE_COUNT;
        }
      }
    }

    method MaxProbe() returns (m: int)
      requires Valid()
      ensures m == MaxSize(State())
    {
      for i := 0 to lost.Length
        invariant forall k :: 0 <= k < i ==> lost[k] != INVALID_BYTE_COUNT
      {
        if lost[i] == INVALID_BYTE_COUNT {
          return lost[i - 1];
        }
      }
      m := lost[lost.Length - 1];
    }

    method IsDone() returns (done: bool)
      requires Valid()
      ensures done == Done(State())
    {
      var m := MaxProbe();
      done := m - min <= MAX_MTU_DIFF + 1;
    }

    /** Called when a probe is due: none is in flight and the search is not over. */
    method GetPing() returns (size: int, gen: int)
      requires Valid() && inFlight == INVALID_BYTE_COUNT && !Done(State())
      modifies this`inFlight
      ensures Valid() && State() == old(State()) && generation == old(generation)
      ensures size == ProbeSize(State()) && inFlight == size && gen == generation
    {
      ProbeInside(State());
      if lastProbeWasLost {
        size := (min + lost[0]) / 2;
      } else {
        var m := MaxProbe();
        size := (min + m) / 2;
      }
      inFlight := size;
      gen := generation;
    }

    method Reset(start: int, max: int)
      requires Valid() && 0 <= start && 0 <= max
      modifies this, lost
      ensures Valid() && State() == Search(start, [max], false) && inFlight == INVALID_BYTE_COUNT
      ensures generation == (old(generation) + 1) % 256
    {
      generation := (generation + 1) % 256;
      lastProbeWasLost := false;
      inFlight := INVALID_BYTE_COUNT;
      Init(start, max);
    }

    /** The first loop of `OnAcked`: the first slot above `size`, or 0 if there is none. */
    method SlotAbove(size: int) returns (j: int)
      requires lost.Length == MAX_LOST_MTU_PROBES && Packed(lost[..]) && 0 <= size
      ensures var i := FirstAbove(Used(lost[..]), size);
              j == if i < |Used(lost[..])| then i else 0
    {
      ghost var used := Used(lost[..]);
      for i := 0 to lost.Length
        invariant i <= FirstAbove(used, size) || FirstAbove(used, size) == |used|
      {
        assert lost[i] == lost[..][i] == Slot(used, i);
        if size < lost[i] {
          return i;
        }
      }
      j := 0;
    }

    /** The second loop of `OnAcked`: drops the first `j` slots. */
    method DropSlots(j: int)
      requires lost.Length == MAX_LOST_MTU_PROBES && 0 < j < MAX_LOST_MTU_PROBES
      modifies lost
      ensures lost[..] == old(lost[..])[j..] + seq(j, _ => INVALID_BYTE_COUNT)
    {
      ghost var slots := lost[..];
      for k := 0 to lost.Length
        invariant forall m :: 0 <= m < k ==> lost[m] == if m + j < 3 then slots[m + j] else INVALID_BYTE_COUNT
        invariant forall m :: k <= m < lost.Length ==> lost[m] == slots[m]
      {
        if k + j < lost.Length {
          lost[k] := lost[k + j];
        } else {
          lost[k] := INVALID_BYTE_COUNT;
        }
      }
    }

    /** `panics` marks the calls on which the code panics: a current handler without a probe in flight. */
    method OnAcked(gen: int) returns (panics: bool)
      requires Valid()
      modifies this`inFlight, this`min, this`lastProbeWasLost, lost
      ensures Valid()
      ensures gen != generation ==> unchanged(this) && unchanged(lost) && !panics
      ensures gen == generation ==> (panics <==> old(inFlight) == INVALID_BYTE_COUNT)
      ensures panics ==> unchanged(this) && unchanged(lost)
      ensures gen == generation && !panics ==>
        State() == Acked(old(State()), old(inFlight)) && inFlight == INVALID_BYTE_COUNT
    {
      hide Acked, WellFormed, Packed, Used, FirstAbove;
      if gen != generation {
        return false;
      }
      var size := inFlight;
      if size == INVALID_BYTE_COUNT {
        return true;
      }
      ghost var s0, slots := State(), lost[..];
      AckedWellFormed(s0, size);
      AckedDrops(s0, size);
      inFlight := INVALID_BYTE_COUNT;
      min := size;
      lastProbeWasLost := false;
      var j := SlotAbove(size);
      if j > 0 {
        DropSlots(j);
        UsedAfterDrop(slots, j);
      }
      panics := false;
    }

    method OnLost(gen: int) returns (panics: bool)
      requires Valid()
      modifies this`inFlight, this`lastProbeWasLost, lost
      ensures Valid()
      ensures gen != generation ==> unchanged(this) && unchanged(lost) && !panics
      ensures gen == generation ==> (panics <==> old(inFlight) == INVALID_BYTE_COUNT)
      ensures panics ==> unchanged(this) && unchanged(lost)
      ensures gen == generation && !panics ==>
        State() == Lost(old(State()), old(inFlight)) && inFlight == INVALID_BYTE_COUNT
    {
      if gen != generation {
        return false;
      }
      var size := inFlight;
      if size == INVALID_BYTE_COUNT {
        return true;
      }
      ghost var s0 := State();
      LostWellFormed(s0, size);
      lastProbeWasLost := true;
      inFlight := INVALID_BYTE_COUNT;
      InsertSlot(size);
      panics := false;
    }

    /** The loop of `OnLost`: `size` goes before the first larger slot; the last slot falls off. */
    method InsertSlot(size: int)
      requires lost.Length == MAX_LOST_MTU_PROBES && Packed(lost[..]) && 0 <= size
      requires Used(lost[..]) != []
      requires FirstAbove(Used(lost[..]), size) < |Used(lost[..])|
      modifies lost
      ensures Packed(lost[..])
      ensures forall m: int, b: bool :: Used(lost[..]) == Lost(Search(m, old(Used(lost[..])), b), size).lost
    {
      ghost var slots := lost[..];
      ghost var used := Used(slots);
      for i := 0 to lost.Length
        invariant i <= FirstAbove(used, size) && lost[..] == slots
      {
        assert lost[i] == lost[..][i] == Slot(used, i);
        if size < lost[i] {
          forall k | i < k < lost.Length {
            lost[k] := lost[k - 1];
          }
          lost[i] := size;
          assert lost[..] == (slots[..i] + [size] + slots[i..])[..MAX_LOST_MTU_PROBES];
          UsedAfterInsert(slots, i, size);
          break;
        }
      }
    }
  }

  // ---------------------------------------------------------------- whole searches

  lemma StartOnTrack(start: int, max: int, mtu: int)
    requires 0 <= start && 0 <= max
    ensures start <= Min(mtu, max) ==> OnTrack(Search(start, [max], false), mtu, max, 0)
  {
  }

  lemma OnTrackBelow(s: Search, mtu: int, ceiling: int, chance: nat)
    requires OnTrack(s, mtu, ceiling, chance)
    ensures s.min <= Min(mtu, ceiling)
  {
  }

  /** Sends one probe and resolves it. */
  method ProbeOnce(f: MtuFinder, max: int, mtu: int, dropped: bool, chance: nat) returns (chance': nat)
    requires f.Valid() && f.inFlight == INVALID_BYTE_COUNT && !Done(f.State())
    modifies f, f.lost
    ensures f.Valid() && f.inFlight == INVALID_BYTE_COUNT
    ensures f.State() == Resolve(old(f.State()), mtu, dropped)
    ensures chance' == chance + Bit(ProbeSize(old(f.State())) <= mtu && dropped)
    ensures Closer(f.State(), old(f.State()))
    ensures f.min >= old(f.min) && MaxSize(f.State()) <= old(MaxSize(f.State()))
    ensures old(OnTrack(f.State(), mtu, max, chance)) ==> OnTrack(f.State(), mtu, max, chance')
  {
    hide Closer, OnTrack, WellFormed, Acked, Lost, Packed, Used;
    ghost var s := f.State();
    ghost var tracked := OnTrack(s, mtu, max, chance);
    chance' := chance;
    ProbeInside(s);
    var size, gen := f.GetPing();
    if size <= mtu && !dropped {
      AckedCloser(s);
      AckedWellFormed(s, size);
      if tracked {
        AckedOnTrack(s, mtu, max, chance);
      }
      var panics := f.OnAcked(gen);
    } else {
      LostCloser(s);
      LostWellFormed(s, size);
      LostShape(s, size);
      if tracked {
        LostOnTrack(s, mtu, max, chance);
      }
      if size <= mtu {
        chance' := chance + 1;
      }
      var panics := f.OnLost(gen);
    }
  }

  /** What the loop of a search needs to know of a valid, unfinished state. */
  lemma Unfinished(s: Search)
    requires WellFormed(s)
    ensures |s.lost| > 0 && 0 <= MaxSize(s) && SlotsAbove(s.lost, s.min) <= 3 && |s.lost| <= 3
    ensures !Done(s) ==> s.min < MaxSize(s)
  {
  }

  /** The sizes and chance losses of the search so far, which has come to `t`. */
  ghost predicate Traced(s: Search, mtu: int, drop: nat -> bool, sizes: seq<int>, chance: nat, t: Search)
    requires |s.lost| > 0
  {
    && |sizes| > 0 && t == Searched(s, mtu, drop, |sizes| - 1) && OngoingFor(s, mtu, drop, |sizes| - 1)
    && (forall k :: 0 <= k < |sizes| ==> sizes[k] == Searched(s, mtu, drop, k).min)
    && chance == ChanceLosses(s, mtu, drop, |sizes| - 1)
  }

  lemma TracedOn(s: Search, mtu: int, drop: nat -> bool, sizes: seq<int>, chance: nat, t: Search)
    requires |s.lost| > 0 && Traced(s, mtu, drop, sizes, chance, t) && |t.lost| > 0 && !Done(t)
    ensures var u, n := Resolve(t, mtu, drop(|sizes| - 1)), |sizes| - 1;
            Traced(s, mtu, drop, sizes + [u.min], chance + Bit(ProbeSize(t) <= mtu && drop(n)), u)
  {
    hide Resolve;
  }

  lemma TracedFrom(s: Search, mtu: int, drop: nat -> bool)
    requires |s.lost| > 0
    ensures Traced(s, mtu, drop, [s.min], 0, s)
  {
  }

  /** What is known of a search that is over. */
  lemma TracedToEnd(start: int, max: int, mtu: int, drop: nat -> bool, sizes: seq<int>, chance: nat, t: Search)
    requires 0 <= start && |t.lost| > 0 && Done(t) && Traced(Search(start, [max], false), mtu, drop, sizes, chance, t)
    ensures sizes[|sizes| - 1] == t.min && Done(Searched(Search(start, [max], false), mtu, drop, |sizes| - 1))
    ensures (forall i :: !drop(i)) ==> chance == 0
    ensures (forall i :: !drop(i)) && start < max && start <= mtu ==> |sizes| - 1 <= 6 * Digits(max - start - 1)
    ensures max <= mtu && max - start > MAX_MTU_DIFF + 1 && drop(0) && drop(1) && drop(2) ==>
      sizes[|sizes| - 1] < max - (MAX_MTU_DIFF + 1)
  {
    hide Searched, ChanceLosses;
    var s := Search(start, [max], false);
    if forall i :: !drop(i) {
      NoDropsNoChance(s, mtu, drop, |sizes| - 1);
      if start < max && start <= mtu {
        ProbesTaken(start, max, mtu, drop, |sizes| - 1);
      }
    }
    if max <= mtu && max - start > MAX_MTU_DIFF + 1 && drop(0) && drop(1) && drop(2) {
      ThreeChanceLossesMislead(start, max, mtu, drop, |sizes| - 1);
    }
  }

  /**
   A complete search on a path that carries exactly the packets of up to `mtu` bytes, except that
   probe `i` is also lost when `drop(i)`.  It ends for every `drop`, with the sizes and the chance
   losses of the abstract search; the size never shrinks and never exceeds what the path carries.
   With at most two chance losses it ends within 21 bytes, in particular if nothing is dropped, when
   the number of probes is logarithmic; if the first three probes are dropped it never does.
   */
  method Discover(start: int, max: int, mtu: int, drop: nat -> bool) returns (sizes: seq<int>, chance: nat)
    requires 0 <= start && 0 <= max
    ensures |sizes| > 0 && sizes[0] == start && Sorted(sizes)
    ensures var s := Search(start, [max], false);
            var t := Searched(s, mtu, drop, |sizes| - 1);
            Done(t) && Traced(s, mtu, drop, sizes, chance, t)
    ensures (forall i :: !drop(i)) ==> chance == 0
    // without drops, six probes for every digit of the range are enough
    ensures (forall i :: !drop(i)) && start < max && start <= mtu ==> |sizes| - 1 <= 6 * Digits(max - start - 1)
    ensures start <= Min(mtu, max) ==> sizes[|sizes| - 1] <= Min(mtu, max)
    ensures start <= Min(mtu, max) && chance < MAX_LOST_MTU_PROBES ==>
      Min(mtu, max) - (MAX_MTU_DIFF + 1) <= sizes[|sizes| - 1]
    ensures max <= mtu && max - start > MAX_MTU_DIFF + 1 && drop(0) && drop(1) && drop(2) ==>
      sizes[|sizes| - 1] < max - (MAX_MTU_DIFF + 1)
  {
    hide OnTrack, Packed, Used, SlotsAt, SlotsAbove, Resolve, Traced, Searched, Done, Sorted, ProbeSize;
    var f := new MtuFinder(start, max);
    ghost var s := Search(start, [max], false);
    sizes, chance := [start], 0;
    StartOnTrack(start, max, mtu);
    TracedFrom(s, mtu, drop);
    SortedOne(start);
    Unfinished(f.State());
    var done := f.IsDone();
    while !done
      invariant fresh(f) && fresh(f.lost) && f.Valid() && f.inFlight == INVALID_BYTE_COUNT
      invariant done == Done(f.State())
      invariant |sizes| > 0 && sizes[0] == start && Sorted(sizes) && sizes[|sizes| - 1] == f.min
      invariant Traced(s, mtu, drop, sizes, chance, f.State())
      invariant MaxSize(f.State()) <= max
      invariant start <= Min(mtu, max) ==> OnTrack(f.State(), mtu, max, chance)
      decreases max - f.min, MaxSize(f.State()), SlotsAt(f.State().lost, MaxSize(f.State())),
                3 - SlotsAbove(f.State().lost, f.min), f.lastProbeWasLost, 3 - |f.State().lost|
    {
      Unfinished(f.State());
      TracedOn(s, mtu, drop, sizes, chance, f.State());
      chance := ProbeOnce(f, max, mtu, drop(|sizes| - 1), chance);
      Unfinished(f.State());
      SortedAppend(sizes, f.min);
      sizes := sizes + [f.min];
      done := f.IsDone();
    }
    if start <= Min(mtu, max) {
      OnTrackBelow(f.State(), mtu, max, chance);
      if chance < MAX_LOST_MTU_PROBES {
        DoneIsAccurate(f.State(), mtu, max, chance);
      }
    }
    TracedIs(s, mtu, drop, sizes, chance, f.State());
    TracedToEnd(start, max, mtu, drop, sizes, chance, f.State());
  }

  lemma SortedOne(v: int)
    ensures Sorted([v])
  {
  }

  lemma SortedAppend(s: seq<int>, v: int)
    requires Sorted(s) && (s != [] ==> s[|s| - 1] <= v)
    ensures Sorted(s + [v])
  {
  }

  lemma TracedIs(s: Search, mtu: int, drop: nat -> bool, sizes: seq<int>, chance: nat, t: Search)
    requires |s.lost| > 0 && Traced(s, mtu, drop, sizes, chance, t)
    ensures |sizes| > 0 && t == Searched(s, mtu, drop, |sizes| - 1)
  {
  }

  /** A reset, after which a probe is sent or not. */
  datatype Restart = Restart(start: nat, max: nat, probe: bool)

  /** The probe that is in flight after a reset, if there is one. */
  function InFlightAfter(r: Restart): Option<int> {
    if r.probe && !Done(Search(r.start, [r.max], false)) then Some((r.start + r.max) / 2) else None
  }

  datatype StaleOutcome = Ignored | Panics | Misattributed(size: int)

  /**
   The outcome of a probe that was sent before the last resets: it is ignored unless the eight-bit
   generation has come round to the same value; then the code panics if no probe is in flight, and
   else takes it as the outcome of the probe that is: an acknowledgement raises the current size to
   one that nothing confirmed.
   */
  method StaleProbe(start: nat, max: nat, restarts: seq<Restart>, acked: bool) returns (r: StaleOutcome, current: int)
    requires !Done(Search(start, [max], false)) && restarts != []
    ensures r == Ignored <==> |restarts| % 256 != 0
    ensures var last := restarts[|restarts| - 1];
            && (r == Panics <==> |restarts| % 256 == 0 && InFlightAfter(last).None?)
            && (r.Misattributed? <==> |restarts| % 256 == 0 && InFlightAfter(last).Some?)
            && (r.Misattributed? ==> r.size == InFlightAfter(last).value)
            && current == if r.Misattributed? && acked then r.size else last.start
  {
    hide Packed, Used;
    var f := new MtuFinder(start, max);
    var _, gen := f.GetPing();
    for i := 0 to |restarts|
      invariant fresh(f) && fresh(f.lost) && f.Valid() && f.generation == i % 256 && gen == 0
      invariant i > 0 ==>
        var last := restarts[i - 1];
        && f.State() == Search(last.start, [last.max], false)
        && f.inFlight == if InFlightAfter(last).Some? then InFlightAfter(last).value else INVALID_BYTE_COUNT
    {
      f.Reset(restarts[i].start, restarts[i].max);
      var done := f.IsDone();
      if restarts[i].probe && !done {
        var _, _ := f.GetPing();
      }
    }
    var inFlight, current' := f.inFlight, f.generation;
    var panics;
    if acked {
      panics := f.OnAcked(gen);
    } else {
      panics := f.OnLost(gen);
    }
    current := f.min;
    r := if gen != current' then Ignored else if panics then Panics else Misattributed(inFlight);
  }
}
