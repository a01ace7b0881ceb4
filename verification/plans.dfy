/**
 * `PlannerSlot` and `PlannerCourseNetwork` as values: a plan is a list of slots, each holding a
 * course and the index of the slot to take next. The last slot is the plan's goal course.
 */
module Plans {
  import opened Outcomes
  import opened Registry

  datatype Slot = Slot(course: Course, next: Option<nat>)

  /** `starts` and `end` are slot indices; `length` is the plan's length in terms. */
  datatype Network = Network(starts: seq<nat>, slots: seq<Slot>, end: nat, length: int)

  /** Every link points strictly further down the slot list. */
  predicate Forward(n: Network) {
    forall i :: 0 <= i < |n.slots| && n.slots[i].next.Some? ==> i < n.slots[i].next.value < |n.slots|
  }

  /** Some slot links to slot `g`. */
  predicate HasIncoming(n: Network, g: nat) {
    exists h :: 0 <= h < |n.slots| && n.slots[h].next == Some(g)
  }

  predicate Increasing(xs: seq<nat>) {
    forall i, j :: 0 <= i < j < |xs| ==> xs[i] < xs[j]
  }

  /**
   * The shape every constructed plan has: the goal is the last slot and has no successor, every
   * other slot links forward, and the starts are exactly the slots nothing links to, in order.
   */
  predicate Valid(n: Network) {
    && |n.slots| > 0
    && n.end == |n.slots| - 1
    && n.slots[n.end].next == None
    && (forall i :: 0 <= i < n.end ==> n.slots[i].next.Some? && i < n.slots[i].next.value < |n.slots|)
    && Increasing(n.starts)
    && (forall g <- n.starts :: g < |n.slots| && !HasIncoming(n, g))
    && (forall g :: 0 <= g < |n.slots| && !HasIncoming(n, g) ==> g in n.starts)
  }

  lemma {:induction false} ValidIsForward(n: Network)
    requires Valid(n)
    ensures Forward(n)
  {
  }

  /** Terms needed to go from slot `i` to the goal: its duration plus that of every later slot on its path. */
  function Chain(n: Network, i: nat): nat
    requires Forward(n) && i < |n.slots|
    decreases |n.slots| - i
  {
    n.slots[i].course.duration + match n.slots[i].next
      case None => 0
      case Some(j) => Chain(n, j)
  }

  /** `length` is the duration of the longest path through the plan. */
  predicate LongestIs(n: Network) {
    && Forward(n)
    && (forall i :: 0 <= i < |n.slots| ==> Chain(n, i) <= n.length)
    && (exists i :: 0 <= i < |n.slots| && Chain(n, i) == n.length)
  }

  /** The codes of the slots that link directly to slot `g`. */
  function PredCodes(n: Network, g: nat): set<string>
  {
    set h | 0 <= h < |n.slots| && n.slots[h].next == Some(g) :: n.slots[h].course.code
  }

  /**
   * The course at slot `g` can be taken once its predecessors are done: it has a combo whose
   * members are all taken or are direct predecessors of the slot.
   */
  predicate Ready(db: CourseDb, n: Network, g: nat)
    requires g < |n.slots|
  {
    var c := n.slots[g].course;
    c.prerequisites.Some? && exists q <- c.prerequisites.value :: forall x <- q :: x in db.taken || x in PredCodes(n, g)
  }

  predicate Feasible(db: CourseDb, n: Network) {
    forall g :: 0 <= g < |n.slots| ==> Ready(db, n, g)
  }

  /** The code of the plan's goal course. */
  function GoalCode(n: Network): string
    requires n.end < |n.slots|
  {
    n.slots[n.end].course.code
  }

  /** `PlannerCourseNetwork(course)`: one slot that is both start and end; the length is the course's duration. */
  function Single(c: Course): (n: Network)
    ensures Valid(n) && LongestIs(n)
    ensures |n.slots| == 1 && n.slots[n.end].course == c && n.length == c.duration
  {
    var n := Network([0], [Slot(c, None)], 0, c.duration);
    assert Chain(n, 0) == c.duration;
    n
  }

  /** Number of slots in all the networks together. */
  function SlotCount(ns: seq<Network>): nat
  {
    if |ns| == 0 then 0 else |ns[0].slots| + SlotCount(ns[1..])
  }

  /** Where the slots of `ns[k]` begin once the networks are laid end to end. */
  function Offset(ns: seq<Network>, k: nat): nat
    requires k <= |ns|
  {
    if k == 0 then 0 else Offset(ns, k - 1) + |ns[k - 1].slots|
  }

  /** The length of the longest child plan. */
  function MaxLength(ns: seq<Network>): (m: int)
    requires |ns| > 0
    ensures forall k :: 0 <= k < |ns| ==> ns[k].length <= m
    ensures exists k :: 0 <= k < |ns| && ns[k].length == m
  {
    if |ns| == 1 then ns[0].length
    else
      var rest := MaxLength(ns[1..]);
      assert forall k :: 1 <= k < |ns| ==> ns[k] == ns[1..][k - 1];
      if ns[0].length >= rest then ns[0].length else rest
  }

  /** Slot `i` of `n` moved `off` places down; the old goal now links to `target`. */
  function RelinkSlot(n: Network, i: nat, off: nat, target: nat): Slot
    requires i < |n.slots|
  {
    if i == n.end then Slot(n.slots[i].course, Some(target))
    else Slot(n.slots[i].course, match n.slots[i].next
                                   case None => None
                                   case Some(j) => Some(j + off))
  }

  function Relink(n: Network, off: nat, target: nat): (r: seq<Slot>)
    ensures |r| == |n.slots|
  {
    seq(|n.slots|, i requires 0 <= i < |n.slots| => RelinkSlot(n, i, off, target))
  }

  /** The first loop of `merge_networks` on `courses`, with the links `network.end.next_course = slot`. */
  function Absorb(ns: seq<Network>, off: nat, target: nat): seq<Slot>
  {
    if |ns| == 0 then [] else Relink(ns[0], off, target) + Absorb(ns[1..], off + |ns[0].slots|, target)
  }

  function Shift(xs: seq<nat>, off: nat): (r: seq<nat>)
    ensures |r| == |xs|
  {
    seq(|xs|, i requires 0 <= i < |xs| => xs[i] + off)
  }

  /** The first loop of `merge_networks` on `starts`. */
  function AbsorbStarts(ns: seq<Network>, off: nat): seq<nat>
  {
    if |ns| == 0 then [] else Shift(ns[0].starts, off) + AbsorbStarts(ns[1..], off + |ns[0].slots|)
  }

  /**
   * `merge_networks` called on a fresh `PlannerCourseNetwork()`: the children's slots in order,
   * then one new goal slot for `end` that every child's goal links to; the length is the
   * longest child plus `end`'s duration. An empty list fails at `max([])`.
   */
  function Merge(ns: seq<Network>, end: Course): (r: Result<Network>)
    ensures r.Err? <==> |ns| == 0
    ensures r.Err? ==> r.fault == EmptyMaximum
    ensures r.Ok? ==> r.value.end == SlotCount(ns) && |r.value.slots| == SlotCount(ns) + 1
                      && r.value.slots[r.value.end] == Slot(end, None)
  {
    if |ns| == 0 then Err(EmptyMaximum)
    else
      var total := SlotCount(ns);
      AbsorbLength(ns, 0, total);
      Ok(Network(AbsorbStarts(ns, 0), Absorb(ns, 0, total) + [Slot(end, None)], total, MaxLength(ns) + end.duration))
  }

  // ---- layout of the merged slot list ----

  lemma {:induction false} AbsorbLength(ns: seq<Network>, off: nat, target: nat)
    ensures |Absorb(ns, off, target)| == SlotCount(ns)
  {
    if |ns| > 0 {
      AbsorbLength(ns[1..], off + |ns[0].slots|, target);
    }
  }

  lemma {:induction false} OffsetTail(ns: seq<Network>, k: nat)
    requires 1 <= k <= |ns|
    ensures Offset(ns, k) == |ns[0].slots| + Offset(ns[1..], k - 1)
  {
    if k > 1 {
      OffsetTail(ns, k - 1);
      assert ns[k - 1] == ns[1..][k - 2];
    }
  }

  lemma {:induction false} OffsetTotal(ns: seq<Network>)
    ensures Offset(ns, |ns|) == SlotCount(ns)
  {
    if |ns| > 0 {
      OffsetTail(ns, |ns|);
      OffsetTotal(ns[1..]);
    }
  }

  lemma {:induction false} OffsetMono(ns: seq<Network>, k: nat, k': nat)
    requires k <= k' <= |ns|
    ensures Offset(ns, k) <= Offset(ns, k')
    decreases k' - k
  {
    if k < k' {
      OffsetMono(ns, k, k' - 1);
    }
  }

  /** Slot `i` of child `k` sits at index `Offset(ns, k) + i` of the merged list. */
  lemma {:induction false} AbsorbAt(ns: seq<Network>, off: nat, target: nat, k: nat, i: nat)
    requires k < |ns| && i < |ns[k].slots|
    ensures Offset(ns, k) + i < SlotCount(ns) == |Absorb(ns, off, target)|
    ensures Absorb(ns, off, target)[Offset(ns, k) + i] == RelinkSlot(ns[k], i, off + Offset(ns, k), target)
  {
    AbsorbLength(ns, off, target);
    if k == 0 {
    } else {
      var c0 := |ns[0].slots|;
      OffsetTail(ns, k);
      assert ns[k] == ns[1..][k - 1];
      AbsorbAt(ns[1..], off + c0, target, k - 1, i);
      assert Absorb(ns, off, target)[Offset(ns, k) + i] == Absorb(ns[1..], off + c0, target)[Offset(ns[1..], k - 1) + i];
    }
  }

  /** Every index of the merged list below the new goal belongs to exactly one child. */
  lemma {:induction false} Locate(ns: seq<Network>, g: nat) returns (k: nat, i: nat)
    requires g < SlotCount(ns)
    ensures k < |ns| && i < |ns[k].slots| && g == Offset(ns, k) + i
  {
    if g < |ns[0].slots| {
      k, i := 0, g;
    } else {
      var k', i' := Locate(ns[1..], g - |ns[0].slots|);
      k, i := k' + 1, i';
      OffsetTail(ns, k);
      assert ns[k] == ns[1..][k'];
    }
  }

  lemma {:induction false} RegionsDisjoint(ns: seq<Network>, k: nat, i: nat, k': nat, i': nat)
    requires k < |ns| && i < |ns[k].slots| && k' < |ns| && i' < |ns[k'].slots|
    requires Offset(ns, k) + i == Offset(ns, k') + i'
    ensures k == k' && i == i'
  {
    if k < k' {
      OffsetMono(ns, k + 1, k');
    } else if k' < k {
      OffsetMono(ns, k' + 1, k);
    }
  }

  lemma {:induction false} RegionInside(ns: seq<Network>, k: nat)
    requires k < |ns|
    ensures Offset(ns, k) + |ns[k].slots| <= SlotCount(ns)
  {
    OffsetMono(ns, k + 1, |ns|);
    OffsetTotal(ns);
  }

  // ---- the merged network ----

  /** The starts of a network are increasing slot indices. */
  predicate StartsInRange(n: Network) {
    Increasing(n.starts) && forall x <- n.starts :: x < |n.slots|
  }

  lemma {:induction false} ValidStartsInRange(n: Network)
    requires Valid(n)
    ensures StartsInRange(n)
  {
  }

  lemma {:induction false} ShiftIn(xs: seq<nat>, off: nat, i: nat)
    ensures off + i in Shift(xs, off) <==> i in xs
  {
    if i in xs {
      var j :| 0 <= j < |xs| && xs[j] == i;
      assert Shift(xs, off)[j] == off + i;
    }
  }

  lemma {:induction false} ShiftRange(n: Network, off: nat)
    requires StartsInRange(n)
    ensures Increasing(Shift(n.starts, off))
    ensures forall x <- Shift(n.starts, off) :: off <= x < off + |n.slots|
  {
    var a := Shift(n.starts, off);
    forall x <- a
      ensures off <= x < off + |n.slots|
    {
      var j :| 0 <= j < |a| && a[j] == x;
      assert n.starts[j] in n.starts;
    }
  }

  lemma {:induction false} AbsorbStartsShape(ns: seq<Network>, off: nat)
    requires forall k :: 0 <= k < |ns| ==> StartsInRange(ns[k])
    ensures Increasing(AbsorbStarts(ns, off))
    ensures forall x <- AbsorbStarts(ns, off) :: off <= x < off + SlotCount(ns)
  {
    if |ns| > 0 {
      var c0 := |ns[0].slots|;
      var a := Shift(ns[0].starts, off);
      assert forall k :: 0 <= k < |ns[1..]| ==> ns[1..][k] == ns[k + 1];
      AbsorbStartsShape(ns[1..], off + c0);
      var b := AbsorbStarts(ns[1..], off + c0);
      ShiftRange(ns[0], off);
      assert AbsorbStarts(ns, off) == a + b;
      IncreasingConcat(a, b, off + c0);
    }
  }

  /** Two increasing lists, the first wholly below `mid` and the second from `mid` on, join increasing. */
  lemma {:induction false} IncreasingConcat(a: seq<nat>, b: seq<nat>, mid: nat)
    requires Increasing(a) && Increasing(b)
    requires forall x <- a :: x < mid
    requires forall x <- b :: mid <= x
    ensures Increasing(a + b)
  {
    forall i, j | 0 <= i < j < |a + b|
      ensures (a + b)[i] < (a + b)[j]
    {
      if j < |a| {
        assert (a + b)[i] == a[i] && (a + b)[j] == a[j];
      } else if i < |a| {
        assert (a + b)[i] == a[i];
        assert a[i] in a;
        assert (a + b)[j] == b[j - |a|];
        assert b[j - |a|] in b;
      } else {
        assert (a + b)[i] == b[i - |a|];
        assert (a + b)[j] == b[j - |a|];
      }
    }
  }

  /** A merged index is a start exactly when the matching slot of its child was one. */
  lemma {:induction false} AbsorbStartsIn(ns: seq<Network>, off: nat, k: nat, i: nat)
    requires forall k :: 0 <= k < |ns| ==> StartsInRange(ns[k])
    requires k < |ns| && i < |ns[k].slots|
    ensures off + Offset(ns, k) + i in AbsorbStarts(ns, off) <==> i in ns[k].starts
  {
    var c0 := |ns[0].slots|;
    assert forall k :: 0 <= k < |ns[1..]| ==> ns[1..][k] == ns[k + 1];
    AbsorbStartsShape(ns[1..], off + c0);
    ShiftRange(ns[0], off);
    if k == 0 {
      ShiftIn(ns[0].starts, off, i);
    } else {
      OffsetTail(ns, k);
      AbsorbStartsIn(ns[1..], off + c0, k - 1, i);
      assert ns[k] == ns[1..][k - 1];
      AbsorbStartsSkip(ns, off, off + Offset(ns, k) + i);
    }
  }

  /** An index past the first child's region is a start exactly when the rest of the list makes it one. */
  lemma {:induction false} AbsorbStartsSkip(ns: seq<Network>, off: nat, x: nat)
    requires |ns| > 0 && StartsInRange(ns[0]) && x >= off + |ns[0].slots|
    ensures x in AbsorbStarts(ns, off) <==> x in AbsorbStarts(ns[1..], off + |ns[0].slots|)
  {
    ShiftRange(ns[0], off);
  }

  /** The network `Merge` builds from a non-empty list. */
  function Merged(ns: seq<Network>, end: Course): Network
    requires |ns| > 0
  {
    Merge(ns, end).value
  }

  predicate AllValid(ns: seq<Network>) {
    forall k :: 0 <= k < |ns| ==> Valid(ns[k])
  }

  /** Child `k`'s slot `i`, relinked, is slot `Offset(ns, k) + i` of the merged network. */
  lemma {:induction false} MergedSlot(ns: seq<Network>, end: Course, k: nat, i: nat)
    requires k < |ns| && i < |ns[k].slots|
    ensures Offset(ns, k) + i < SlotCount(ns)
    ensures Merged(ns, end).slots[Offset(ns, k) + i] == RelinkSlot(ns[k], i, Offset(ns, k), SlotCount(ns))
  {
    var total := SlotCount(ns);
    AbsorbAt(ns, 0, total, k, i);
    var a := Absorb(ns, 0, total);
    assert (a + [Slot(end, None)])[Offset(ns, k) + i] == a[Offset(ns, k) + i];
  }

  /**
   * `m` is laid out as `Merge` lays out `ns` under `end`: the children's relinked slots in order,
   * then the new goal, with the children's starts moved along.
   */
  predicate MergedAs(ns: seq<Network>, end: Course, m: Network) {
    && |ns| > 0
    && m.end == SlotCount(ns) && |m.slots| == SlotCount(ns) + 1
    && m.slots[m.end] == Slot(end, None)
    && m.starts == AbsorbStarts(ns, 0)
    && forall k: nat, i: nat :: k < |ns| && i < |ns[k].slots| ==> SlotPlaced(ns, m, k, i)
  }

  /** Child `k`'s slot `i`, relinked, sits at index `Offset(ns, k) + i` of `m`. */
  predicate SlotPlaced(ns: seq<Network>, m: Network, k: nat, i: nat)
    requires k < |ns| && i < |ns[k].slots|
  {
    Offset(ns, k) + i < SlotCount(ns) < |m.slots| &&
    m.slots[Offset(ns, k) + i] == RelinkSlot(ns[k], i, Offset(ns, k), SlotCount(ns))
  }

  lemma {:induction false} MergedIsMergedAs(ns: seq<Network>, end: Course)
    requires |ns| > 0
    ensures MergedAs(ns, end, Merged(ns, end))
  {
    var m := Merged(ns, end);
    forall k: nat, i: nat | k < |ns| && i < |ns[k].slots|
      ensures SlotPlaced(ns, m, k, i)
    {
      MergedSlot(ns, end, k, i);
    }
  }

  lemma {:induction false} SlotAt(ns: seq<Network>, end: Course, m: Network, k: nat, i: nat)
    requires MergedAs(ns, end, m) && k < |ns| && i < |ns[k].slots|
    ensures Offset(ns, k) + i < SlotCount(ns)
    ensures m.slots[Offset(ns, k) + i] == RelinkSlot(ns[k], i, Offset(ns, k), SlotCount(ns))
  {
    assert SlotPlaced(ns, m, k, i);
  }

  /** A relinked slot of child `k'` links to index `Offset(ns, k) + i` only from inside child `k`. */
  lemma {:induction false} RelinkLink(ns: seq<Network>, k': nat, j: nat, k: nat, i: nat)
    requires AllValid(ns) && k' < |ns| && j < |ns[k'].slots| && k < |ns| && i < |ns[k].slots|
    ensures RelinkSlot(ns[k'], j, Offset(ns, k'), SlotCount(ns)).next == Some(Offset(ns, k) + i) <==>
            k' == k && ns[k].slots[j].next == Some(i)
  {
    assert Valid(ns[k']);
    RegionInside(ns, k);
    if j != ns[k'].end {
      var t := ns[k'].slots[j].next.value;
      if Offset(ns, k') + t == Offset(ns, k) + i {
        RegionsDisjoint(ns, k, i, k', t);
      }
    }
  }

  /** The new goal links nowhere, so every link of the merged network leaves an old slot. */
  lemma {:induction false} MergedLinkSource(ns: seq<Network>, end: Course, m: Network, h: nat)
    requires MergedAs(ns, end, m) && h < |m.slots| && m.slots[h].next.Some?
    ensures h < SlotCount(ns)
  {
  }

  /** A link of the merged network into child `k`'s region comes from a slot of the same child. */
  lemma {:induction false} MergedLinkFrom(ns: seq<Network>, end: Course, m: Network, h: nat, k: nat, i: nat)
    requires MergedAs(ns, end, m) && AllValid(ns) && k < |ns| && i < |ns[k].slots| && h < SlotCount(ns)
    requires m.slots[h].next == Some(Offset(ns, k) + i)
    ensures Offset(ns, k) <= h < Offset(ns, k) + |ns[k].slots|
    ensures ns[k].slots[h - Offset(ns, k)].next == Some(i)
  {
    var k', j := Locate(ns, h);
    SlotAt(ns, end, m, k', j);
    RelinkLink(ns, k', j, k, i);
    assert k' == k;
  }

  /** Each link of a child survives the merge, moved with the child's slots. */
  lemma {:induction false} MergedLinkTo(ns: seq<Network>, end: Course, m: Network, h: nat, k: nat, i: nat)
    requires MergedAs(ns, end, m) && AllValid(ns) && k < |ns| && i < |ns[k].slots| && h < |ns[k].slots|
    requires ns[k].slots[h].next == Some(i)
    ensures Offset(ns, k) + h < |m.slots|
    ensures m.slots[Offset(ns, k) + h].next == Some(Offset(ns, k) + i)
  {
    SlotAt(ns, end, m, k, h);
    RelinkLink(ns, k, h, k, i);
  }

  /** A link into a merged slot below the new goal comes from a link of its child. */
  lemma {:induction false} MergedIncomingFrom(ns: seq<Network>, end: Course, m: Network, k: nat, i: nat)
    requires MergedAs(ns, end, m) && AllValid(ns) && k < |ns| && i < |ns[k].slots|
    ensures Offset(ns, k) + i < |m.slots|
    ensures HasIncoming(m, Offset(ns, k) + i) ==> HasIncoming(ns[k], i)
  {
    var g := Offset(ns, k) + i;
    RegionInside(ns, k);
    if HasIncoming(m, g) {
      var h :| 0 <= h < |m.slots| && m.slots[h].next == Some(g);
      MergedLinkSource(ns, end, m, h);
      MergedLinkFrom(ns, end, m, h, k, i);
      var h' := h - Offset(ns, k);
      assert 0 <= h' < |ns[k].slots| && ns[k].slots[h'].next == Some(i);
    }
  }

  /** A link of a child into one of its slots survives the merge. */
  lemma {:induction false} MergedIncomingTo(ns: seq<Network>, end: Course, m: Network, k: nat, i: nat)
    requires MergedAs(ns, end, m) && AllValid(ns) && k < |ns| && i < |ns[k].slots|
    ensures Offset(ns, k) + i < |m.slots|
    ensures HasIncoming(ns[k], i) ==> HasIncoming(m, Offset(ns, k) + i)
  {
    RegionInside(ns, k);
    if HasIncoming(ns[k], i) {
      var h' :| 0 <= h' < |ns[k].slots| && ns[k].slots[h'].next == Some(i);
      MergedLinkTo(ns, end, m, h', k, i);
      var h := Offset(ns, k) + h';
      assert 0 <= h < |m.slots| && m.slots[h].next == Some(Offset(ns, k) + i);
    }
  }

  /** A merged slot below the new goal has an incoming link exactly when its child's slot had one. */
  lemma {:induction false} MergedIncoming(ns: seq<Network>, end: Course, m: Network, k: nat, i: nat)
    requires MergedAs(ns, end, m) && AllValid(ns) && k < |ns| && i < |ns[k].slots|
    ensures Offset(ns, k) + i < |m.slots|
    ensures HasIncoming(m, Offset(ns, k) + i) <==> HasIncoming(ns[k], i)
  {
    MergedIncomingFrom(ns, end, m, k, i);
    MergedIncomingTo(ns, end, m, k, i);
  }

  lemma {:induction false} AllStartsInRange(ns: seq<Network>)
    requires AllValid(ns)
    ensures forall k :: 0 <= k < |ns| ==> StartsInRange(ns[k])
  {
    forall k | 0 <= k < |ns|
      ensures StartsInRange(ns[k])
    {
      ValidStartsInRange(ns[k]);
    }
  }

  /** Every slot but the new goal links further down; each child's old goal links to the new goal. */
  lemma {:induction false} MergeLinksForward(ns: seq<Network>, end: Course, m: Network)
    requires MergedAs(ns, end, m) && AllValid(ns)
    ensures forall h :: 0 <= h < m.end ==> m.slots[h].next.Some? && h < m.slots[h].next.value < |m.slots|
  {
    forall h | 0 <= h < m.end
      ensures m.slots[h].next.Some? && h < m.slots[h].next.value < |m.slots|
    {
      var k, i := Locate(ns, h);
      SlotAt(ns, end, m, k, i);
      RegionInside(ns, k);
      assert Valid(ns[k]);
    }
  }

  /** The merged starts are slot indices nothing links to. */
  lemma {:induction false} MergeStartsUnlinked(ns: seq<Network>, end: Course, m: Network)
    requires MergedAs(ns, end, m) && AllValid(ns)
    ensures forall g <- m.starts :: g < |m.slots| && !HasIncoming(m, g)
  {
    AllStartsInRange(ns);
    AbsorbStartsShape(ns, 0);
    forall g | g in m.starts
      ensures g < |m.slots| && !HasIncoming(m, g)
    {
      var k, i := Locate(ns, g);
      AbsorbStartsIn(ns, 0, k, i);
      assert Valid(ns[k]);
      MergedIncoming(ns, end, m, k, i);
    }
  }

  /** Every merged slot nothing links to is among the merged starts. */
  lemma {:induction false} MergeUnlinkedStarts(ns: seq<Network>, end: Course, m: Network)
    requires MergedAs(ns, end, m) && AllValid(ns)
    ensures forall g :: 0 <= g < |m.slots| && !HasIncoming(m, g) ==> g in m.starts
  {
    var total := SlotCount(ns);
    AllStartsInRange(ns);
    var e0 := ns[0].end;
    assert Valid(ns[0]);
    SlotAt(ns, end, m, 0, e0);
    assert m.slots[e0].next == Some(total);
    forall g | 0 <= g < |m.slots| && !HasIncoming(m, g)
      ensures g in m.starts
    {
      var k, i := Locate(ns, g);
      assert Valid(ns[k]);
      MergedIncoming(ns, end, m, k, i);
      AbsorbStartsIn(ns, 0, k, i);
    }
  }

  lemma {:induction false} MergedAsValid(ns: seq<Network>, end: Course, m: Network)
    requires MergedAs(ns, end, m) && AllValid(ns)
    ensures Valid(m)
  {
    AllStartsInRange(ns);
    AbsorbStartsShape(ns, 0);
    MergeLinksForward(ns, end, m);
    MergeStartsUnlinked(ns, end, m);
    MergeUnlinkedStarts(ns, end, m);
  }

  /** Merging valid networks gives a valid network. */
  lemma {:induction false} MergeValid(ns: seq<Network>, end: Course)
    requires |ns| > 0 && AllValid(ns)
    ensures Valid(Merged(ns, end))
  {
    MergedIsMergedAs(ns, end);
    MergedAsValid(ns, end, Merged(ns, end));
  }

  /** A merged path runs through its child's path and then the new goal. */
  lemma {:induction false} MergedChain(ns: seq<Network>, end: Course, m: Network, k: nat, i: nat)
    requires MergedAs(ns, end, m) && AllValid(ns) && Forward(m) && k < |ns| && i < |ns[k].slots|
    ensures Forward(ns[k])
    ensures Offset(ns, k) + i < |m.slots|
    ensures Chain(m, Offset(ns, k) + i) == Chain(ns[k], i) + end.duration
    decreases |ns[k].slots| - i
  {
    SlotAt(ns, end, m, k, i);
    assert Valid(ns[k]);
    if i == ns[k].end {
      assert Chain(m, SlotCount(ns)) == end.duration;
    } else {
      var j := ns[k].slots[i].next.value;
      MergedChain(ns, end, m, k, j);
    }
  }

  /** The merged length is the longest path of the merged network. */
  lemma {:induction false} MergeLongest(ns: seq<Network>, end: Course)
    requires |ns| > 0 && AllValid(ns) && forall k :: 0 <= k < |ns| ==> LongestIs(ns[k])
    ensures LongestIs(Merged(ns, end))
  {
    var m := Merged(ns, end);
    MergedIsMergedAs(ns, end);
    MergedAsValid(ns, end, m);
    assert m.length == MaxLength(ns) + end.duration;
    MergedAsLongest(ns, end, m);
  }

  /** No path of the merged network is longer than the longest child plus the new goal. */
  lemma {:induction false} MergedChainBound(ns: seq<Network>, end: Course, m: Network, h: nat)
    requires MergedAs(ns, end, m) && AllValid(ns) && Forward(m) && h < |m.slots|
    requires forall k :: 0 <= k < |ns| ==> LongestIs(ns[k])
    ensures Chain(m, h) <= MaxLength(ns) + end.duration
  {
    var top := MaxLength(ns);
    if h == SlotCount(ns) {
      assert Chain(m, h) == end.duration;
      assert LongestIs(ns[0]);
      var i0 :| 0 <= i0 < |ns[0].slots| && Chain(ns[0], i0) == ns[0].length;
      assert 0 <= ns[0].length <= top;
    } else {
      var k, i := Locate(ns, h);
      MergedChain(ns, end, m, k, i);
      assert Chain(m, h) == Chain(ns[k], i) + end.duration;
      assert LongestIs(ns[k]);
      assert Chain(ns[k], i) <= ns[k].length <= top;
    }
  }

  lemma {:induction false} MergedAsLongest(ns: seq<Network>, end: Course, m: Network)
    requires MergedAs(ns, end, m) && AllValid(ns) && Valid(m) && m.length == MaxLength(ns) + end.duration
    requires forall k :: 0 <= k < |ns| ==> LongestIs(ns[k])
    ensures LongestIs(m)
  {
    ValidIsForward(m);
    forall h | 0 <= h < |m.slots|
      ensures Chain(m, h) <= m.length
    {
      MergedChainBound(ns, end, m, h);
    }
    var k :| 0 <= k < |ns| && ns[k].length == MaxLength(ns);
    assert LongestIs(ns[k]);
    var i :| 0 <= i < |ns[k].slots| && Chain(ns[k], i) == ns[k].length;
    MergedChain(ns, end, m, k, i);
  }

  /** Merging leaves each child slot's direct predecessors as they were. */
  lemma {:induction false} MergedPredCodes(ns: seq<Network>, end: Course, m: Network, k: nat, i: nat)
    requires MergedAs(ns, end, m) && AllValid(ns) && k < |ns| && i < |ns[k].slots|
    ensures Offset(ns, k) + i < |m.slots|
    ensures PredCodes(m, Offset(ns, k) + i) == PredCodes(ns[k], i)
  {
    var g := Offset(ns, k) + i;
    RegionInside(ns, k);
    forall x | x in PredCodes(m, g)
      ensures x in PredCodes(ns[k], i)
    {
      var h :| 0 <= h < |m.slots| && m.slots[h].next == Some(g) && m.slots[h].course.code == x;
      MergedLinkSource(ns, end, m, h);
      MergedLinkFrom(ns, end, m, h, k, i);
      var h' := h - Offset(ns, k);
      SlotAt(ns, end, m, k, h');
      assert ns[k].slots[h'].course.code == x;
    }
    forall x | x in PredCodes(ns[k], i)
      ensures x in PredCodes(m, g)
    {
      var h' :| 0 <= h' < |ns[k].slots| && ns[k].slots[h'].next == Some(i) && ns[k].slots[h'].course.code == x;
      SlotAt(ns, end, m, k, h');
      MergedLinkTo(ns, end, m, h', k, i);
    }
  }

  /** A relinked slot links to the new goal exactly when it was its child's goal. */
  lemma {:induction false} RelinkToGoal(ns: seq<Network>, k: nat, j: nat)
    requires AllValid(ns) && k < |ns| && j < |ns[k].slots|
    ensures RelinkSlot(ns[k], j, Offset(ns, k), SlotCount(ns)).next == Some(SlotCount(ns)) <==> j == ns[k].end
  {
    assert Valid(ns[k]);
    RegionInside(ns, k);
  }

  lemma {:induction false} MergedAsGoalPreds(ns: seq<Network>, end: Course, m: Network)
    requires MergedAs(ns, end, m) && AllValid(ns)
    ensures PredCodes(m, SlotCount(ns)) == set k | 0 <= k < |ns| :: GoalCode(ns[k])
  {
    var total := SlotCount(ns);
    forall x | x in PredCodes(m, total)
      ensures exists k :: 0 <= k < |ns| && GoalCode(ns[k]) == x
    {
      var h :| 0 <= h < |m.slots| && m.slots[h].next == Some(total) && m.slots[h].course.code == x;
      var k, i := Locate(ns, h);
      SlotAt(ns, end, m, k, i);
      RelinkToGoal(ns, k, i);
    }
    forall k | 0 <= k < |ns|
      ensures GoalCode(ns[k]) in PredCodes(m, total)
    {
      assert Valid(ns[k]);
      SlotAt(ns, end, m, k, ns[k].end);
      RelinkToGoal(ns, k, ns[k].end);
    }
  }

  /** The new goal's direct predecessors are the children's goals. */
  lemma {:induction false} MergedGoalPreds(ns: seq<Network>, end: Course)
    requires |ns| > 0 && AllValid(ns)
    ensures PredCodes(Merged(ns, end), SlotCount(ns)) == set k | 0 <= k < |ns| :: GoalCode(ns[k])
  {
    MergedIsMergedAs(ns, end);
    MergedAsGoalPreds(ns, end, Merged(ns, end));
  }

  /**
   * Merging feasible plans under a goal one of whose combos is covered by the taken courses and
   * the children's goals gives a feasible plan.
   */
  lemma {:induction false} MergeFeasible(db: CourseDb, ns: seq<Network>, end: Course)
    requires |ns| > 0 && AllValid(ns) && forall k :: 0 <= k < |ns| ==> Feasible(db, ns[k])
    requires end.prerequisites.Some?
    requires exists q <- end.prerequisites.value :: forall x <- q ::
               x in db.taken || exists k :: 0 <= k < |ns| && GoalCode(ns[k]) == x
    ensures Feasible(db, Merged(ns, end))
  {
    MergedIsMergedAs(ns, end);
    MergedAsFeasible(db, ns, end, Merged(ns, end));
  }

  lemma {:induction false} MergedAsFeasible(db: CourseDb, ns: seq<Network>, end: Course, m: Network)
    requires MergedAs(ns, end, m) && AllValid(ns) && forall k :: 0 <= k < |ns| ==> Feasible(db, ns[k])
    requires end.prerequisites.Some?
    requires exists q <- end.prerequisites.value :: forall x <- q ::
               x in db.taken || exists k :: 0 <= k < |ns| && GoalCode(ns[k]) == x
    ensures Feasible(db, m)
  {
    var total := SlotCount(ns);
    forall g | 0 <= g < |m.slots|
      ensures Ready(db, m, g)
    {
      if g == total {
        MergedAsGoalPreds(ns, end, m);
      } else {
        var k, i := Locate(ns, g);
        SlotAt(ns, end, m, k, i);
        MergedPredCodes(ns, end, m, k, i);
        assert Ready(db, ns[k], i);
      }
    }
  }

  // ---- get_number_of_credits ----

  /** The loop of `get_number_of_credits`: each code not yet visited adds its course's duration once. */
  function CreditsFrom(slots: seq<Slot>, visited: set<string>): nat
  {
    if |slots| == 0 then 0
    else
      var c := slots[0].course;
      if c.code in visited then CreditsFrom(slots[1..], visited)
      else c.duration + CreditsFrom(slots[1..], visited + {c.code})
  }

  /**
   * `get_number_of_credits(visited)`; the caller's set is a value and stays as it was. No code
   * is counted twice, and with distinct unvisited codes every slot counts.
   */
  function NumberOfCredits(n: Network, visited: set<string>): (r: nat)
    ensures r <= TotalDuration(n.slots)
    ensures DistinctCodes(n.slots) && Codes(n.slots) !! visited ==> r == TotalDuration(n.slots)
    ensures Codes(n.slots) <= visited ==> r == 0
  {
    CreditsBounds(n.slots, visited);
    CreditsFrom(n.slots, visited)
  }

  lemma {:induction false} CreditsBounds(slots: seq<Slot>, visited: set<string>)
    ensures CreditsFrom(slots, visited) <= TotalDuration(slots)
    ensures DistinctCodes(slots) && Codes(slots) !! visited ==> CreditsFrom(slots, visited) == TotalDuration(slots)
    ensures Codes(slots) <= visited ==> CreditsFrom(slots, visited) == 0
  {
    CreditsAtMostTotal(slots, visited);
    if DistinctCodes(slots) && Codes(slots) !! visited {
      CreditsOfDistinct(slots, visited);
    }
    if Codes(slots) <= visited {
      CreditsVisitedZero(slots, visited);
    }
  }

  function Codes(slots: seq<Slot>): set<string>
  {
    set s <- slots :: s.course.code
  }

  /** The sum of every slot's duration, repeated codes included. */
  function TotalDuration(slots: seq<Slot>): nat
  {
    if |slots| == 0 then 0 else slots[0].course.duration + TotalDuration(slots[1..])
  }

  predicate DistinctCodes(slots: seq<Slot>) {
    forall i, j :: 0 <= i < j < |slots| ==> slots[i].course.code != slots[j].course.code
  }

  /** Counting a plan in two parts: the second part skips the codes the first part counted. */
  lemma {:induction false} CreditsAppend(a: seq<Slot>, b: seq<Slot>, visited: set<string>)
    ensures CreditsFrom(a + b, visited) == CreditsFrom(a, visited) + CreditsFrom(b, visited + Codes(a))
  {
    if |a| == 0 {
      assert a + b == b;
      assert Codes(a) == {};
      assert visited + Codes(a) == visited;
    } else {
      var c := a[0].course;
      assert (a + b)[1..] == a[1..] + b;
      assert Codes(a) == {c.code} + Codes(a[1..]);
      if c.code in visited {
        CreditsAppend(a[1..], b, visited);
        assert visited + Codes(a[1..]) == visited + Codes(a);
      } else {
        CreditsAppend(a[1..], b, visited + {c.code});
        assert visited + {c.code} + Codes(a[1..]) == visited + Codes(a);
      }
    }
  }

  /** Nothing is counted twice: credits never exceed the plain sum of durations. */
  lemma {:induction false} CreditsAtMostTotal(slots: seq<Slot>, visited: set<string>)
    ensures CreditsFrom(slots, visited) <= TotalDuration(slots)
  {
    if |slots| > 0 {
      CreditsAtMostTotal(slots[1..], visited);
      CreditsAtMostTotal(slots[1..], visited + {slots[0].course.code});
    }
  }

  /** With distinct codes, none of them visited, every slot is counted: credits are the plain sum. */
  lemma {:induction false} CreditsOfDistinct(slots: seq<Slot>, visited: set<string>)
    requires DistinctCodes(slots) && Codes(slots) !! visited
    ensures CreditsFrom(slots, visited) == TotalDuration(slots)
  {
    if |slots| > 0 {
      var c := slots[0].course;
      assert c.code in Codes(slots);
      var rest := slots[1..];
      assert forall s <- rest :: s in slots;
      forall s <- rest
        ensures s.course.code != c.code
      {
        var j :| 0 <= j < |rest| && rest[j] == s;
        assert slots[j + 1] == s;
      }
      assert Codes(rest) !! visited + {c.code};
      CreditsOfDistinct(rest, visited + {c.code});
    }
  }

  /** Visited codes that do not occur in the plan make no difference. */
  lemma {:induction false} CreditsIgnoreOtherVisited(slots: seq<Slot>, visited: set<string>, extra: set<string>)
    requires extra !! Codes(slots)
    ensures CreditsFrom(slots, visited + extra) == CreditsFrom(slots, visited)
  {
    if |slots| > 0 {
      var c := slots[0].course;
      assert c.code in Codes(slots);
      assert extra !! Codes(slots[1..]) by {
        assert forall s <- slots[1..] :: s in slots;
      }
      if c.code in visited {
        CreditsIgnoreOtherVisited(slots[1..], visited, extra);
      } else {
        assert visited + extra + {c.code} == visited + {c.code} + extra;
        CreditsIgnoreOtherVisited(slots[1..], visited + {c.code}, extra);
      }
    }
  }

  /** Codes already visited add nothing. */
  lemma {:induction false} CreditsVisitedZero(slots: seq<Slot>, visited: set<string>)
    requires Codes(slots) <= visited
    ensures CreditsFrom(slots, visited) == 0
  {
    if |slots| > 0 {
      assert slots[0].course.code in Codes(slots);
      assert Codes(slots[1..]) <= Codes(slots) by {
        assert forall s <- slots[1..] :: s in slots;
      }
      CreditsVisitedZero(slots[1..], visited);
    }
  }

  /** Listing the same slots twice does not change the count: each code counts once. */
  lemma {:induction false} CreditsRepeat(slots: seq<Slot>, visited: set<string>)
    ensures CreditsFrom(slots + slots, visited) == CreditsFrom(slots, visited)
  {
    CreditsAppend(slots, slots, visited);
    CreditsVisitedZero(slots, visited + Codes(slots));
  }
}
