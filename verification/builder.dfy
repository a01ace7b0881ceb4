/**
 * `DatabaseCourseNetwork.get_all_prereq_networks`: every plan for a course, one per way of
 * choosing a plan for each untaken member of each usable combo.
 */
module PlanBuilder {
  import opened Outcomes
  import opened Registry
  import opened Plans

  /** `[x] + r` for every `r`, in order. */
  function ConsEach(x: Network, rests: seq<seq<Network>>): (r: seq<seq<Network>>)
    ensures |r| == |rests|
  {
    seq(|rests|, i requires 0 <= i < |rests| => [x] + rests[i])
  }

  /** The product with a first list `xs`: the first choice varies slowest. */
  function ConsAll(xs: seq<Network>, rests: seq<seq<Network>>): seq<seq<Network>>
  {
    if |xs| == 0 then [] else ConsEach(xs[0], rests) + ConsAll(xs[1..], rests)
  }

  /** `itertools.product(*lists)`, each tuple as a list. */
  function Product(lists: seq<seq<Network>>): seq<seq<Network>>
  {
    if |lists| == 0 then [[]] else ConsAll(lists[0], Product(lists[1..]))
  }

  function ProductSize(lists: seq<seq<Network>>): nat
  {
    if |lists| == 0 then 1 else |lists[0]| * ProductSize(lists[1..])
  }

  lemma {:induction false} ConsAllSize(xs: seq<Network>, rests: seq<seq<Network>>)
    ensures |ConsAll(xs, rests)| == |xs| * |rests|
  {
    if |xs| > 0 {
      ConsAllSize(xs[1..], rests);
    }
  }

  lemma {:induction false} ConsAllIn(xs: seq<Network>, rests: seq<seq<Network>>, c: seq<Network>)
    ensures c in ConsAll(xs, rests) <==> |c| > 0 && c[0] in xs && c[1..] in rests
  {
    if |xs| > 0 {
      ConsAllIn(xs[1..], rests, c);
      if c in ConsEach(xs[0], rests) {
        var i :| 0 <= i < |rests| && ConsEach(xs[0], rests)[i] == c;
        assert c[1..] == rests[i];
      }
      if |c| > 0 && c[0] == xs[0] && c[1..] in rests {
        var i :| 0 <= i < |rests| && rests[i] == c[1..];
        assert ConsEach(xs[0], rests)[i] == c;
      }
    }
  }

  /** The product has one tuple per way of choosing, and its tuples are exactly those choices. */
  lemma {:induction false} ProductSpec(lists: seq<seq<Network>>)
    ensures |Product(lists)| == ProductSize(lists)
    ensures forall c :: c in Product(lists) <==>
              |c| == |lists| && forall i :: 0 <= i < |lists| ==> c[i] in lists[i]
  {
    if |lists| > 0 {
      ProductSpec(lists[1..]);
      ConsAllSize(lists[0], Product(lists[1..]));
      forall c
        ensures c in Product(lists) <==> |c| == |lists| && forall i :: 0 <= i < |lists| ==> c[i] in lists[i]
      {
        ConsAllIn(lists[0], Product(lists[1..]), c);
        if |c| == |lists| {
          assert forall i :: 1 <= i < |lists| ==> c[i] == c[1..][i - 1] && lists[i] == lists[1..][i - 1];
        }
      }
    }
  }

  /** Every registered member of `q` is ranked below `start`. */
  predicate Below(db: CourseDb, rank: map<string, nat>, start: Course, q: Combo)
    requires start.code in rank
  {
    forall x <- q :: x in db.courses ==> x in rank && rank[x] < rank[start.code]
  }

  lemma {:induction false} PrereqsBelow(db: CourseDb, rank: map<string, nat>, start: Course)
    requires Ranked(db, rank) && Registered(db, start)
    ensures start.code in rank && start.prerequisites.Some?
    ensures forall q <- start.prerequisites.value :: Below(db, rank, start, q)
  {
  }

  /**
   * Every plan for `start`: a single slot when the course has no prerequisites; otherwise one
   * single slot per combo already taken, then the merged plans of each usable combo.
   */
  function AllPrereqNetworks(db: CourseDb, rank: map<string, nat>, start: Course): seq<Network>
    requires Ranked(db, rank) && Registered(db, start)
    decreases rank[start.code], 2, 0
  {
    PrereqsBelow(db, rank, start);
    var prereqs := start.prerequisites.value;
    if prereqs == [[]] then [Single(start)]
    else TakenSingles(db, prereqs, start) + ComboNetworks(db, rank, start, prereqs)
  }

  /** The first loop: a single-slot plan for each combo the user has already completed. */
  function TakenSingles(db: CourseDb, combos: seq<Combo>, start: Course): seq<Network>
  {
    if |combos| == 0 then []
    else (if AllTaken(db, combos[0]) then [Single(start)] else []) + TakenSingles(db, combos[1..], start)
  }

  /** The second loop, over the combos in order. */
  function ComboNetworks(db: CourseDb, rank: map<string, nat>, start: Course, combos: seq<Combo>): seq<Network>
    requires Ranked(db, rank) && Registered(db, start)
    requires forall q <- combos :: Below(db, rank, start, q)
    decreases rank[start.code], 1, |combos|
  {
    if |combos| == 0 then []
    else ForCombo(db, rank, start, combos[0]) + ComboNetworks(db, rank, start, combos[1..])
  }

  /** The plans one combo contributes: none if an untaken member is unknown, else one per product tuple. */
  function ForCombo(db: CourseDb, rank: map<string, nat>, start: Course, q: Combo): seq<Network>
    requires Ranked(db, rank) && Registered(db, start) && Below(db, rank, start, q)
    decreases rank[start.code], 1, 0
  {
    match SubLists(db, rank, start, q)
    case None => []
    case Some(lists) => MergeEach(Product(lists), start)
  }

  /**
   * The plan lists of the untaken members of a combo, in order, or `None` when one of them is
   * not registered.
   */
  function SubLists(db: CourseDb, rank: map<string, nat>, start: Course, q: Combo): Option<seq<seq<Network>>>
    requires Ranked(db, rank) && Registered(db, start) && Below(db, rank, start, q)
    decreases rank[start.code], 0, |q|
  {
    if |q| == 0 then Some([])
    else
      var rest := SubLists(db, rank, start, q[1..]);
      if q[0] in db.taken then rest
      else match GetCourse(db, q[0])
        case None => None
        case Some(c) =>
          match rest
          case None => None
          case Some(lists) => Some([AllPrereqNetworks(db, rank, c)] + lists)
  }

  /** Merge each non-empty tuple under `end`; the empty tuple of an all-taken combo is skipped. */
  function MergeEach(choices: seq<seq<Network>>, end: Course): seq<Network>
  {
    if |choices| == 0 then []
    else (if choices[0] == [] then [] else [Merged(choices[0], end)]) + MergeEach(choices[1..], end)
  }

  // ---- what the plans are ----

  /** A well-shaped plan for `start` whose length is its longest path and whose every course can be taken. */
  predicate GoodPlan(db: CourseDb, start: Course, n: Network) {
    Valid(n) && LongestIs(n) && n.slots[n.end].course == start && Feasible(db, n)
  }

  /** The members of a combo the user still has to take, in order. */
  function Untaken(db: CourseDb, q: Combo): seq<string>
  {
    if |q| == 0 then [] else (if q[0] in db.taken then [] else [q[0]]) + Untaken(db, q[1..])
  }

  lemma {:induction false} UntakenMembers(db: CourseDb, q: Combo)
    ensures forall x <- q :: x !in db.taken ==> x in Untaken(db, q)
    ensures forall x <- Untaken(db, q) :: x in q && x !in db.taken
  {
    if |q| > 0 {
      UntakenMembers(db, q[1..]);
      assert forall x <- q :: x == q[0] || x in q[1..];
    }
  }

  /** The single-slot plan is good once some combo of the course is fully taken. */
  lemma {:induction false} SingleGood(db: CourseDb, start: Course, q: Combo)
    requires start.prerequisites.Some? && q in start.prerequisites.value && AllTaken(db, q)
    ensures GoodPlan(db, start, Single(start))
  {
    var n := Single(start);
    assert Ready(db, n, 0);
  }

  /** Every plan the builder returns is a good plan for the course. */
  lemma {:induction false} AllPrereqNetworksSound(db: CourseDb, rank: map<string, nat>, start: Course)
    requires Ranked(db, rank) && Registered(db, start)
    ensures forall n <- AllPrereqNetworks(db, rank, start) :: GoodPlan(db, start, n)
    decreases rank[start.code], 2, 0
  {
    PrereqsBelow(db, rank, start);
    var prereqs := start.prerequisites.value;
    if prereqs == [[]] {
      SingleGood(db, start, []);
    } else {
      TakenSinglesSound(db, prereqs, start);
      ComboNetworksSound(db, rank, start, prereqs);
    }
  }

  lemma {:induction false} TakenSinglesSound(db: CourseDb, combos: seq<Combo>, start: Course)
    requires start.prerequisites.Some? && forall q <- combos :: q in start.prerequisites.value
    ensures forall n <- TakenSingles(db, combos, start) :: GoodPlan(db, start, n)
  {
    if |combos| > 0 {
      if AllTaken(db, combos[0]) {
        SingleGood(db, start, combos[0]);
      }
      TakenSinglesSound(db, combos[1..], start);
    }
  }

  lemma {:induction false} ComboNetworksSound(db: CourseDb, rank: map<string, nat>, start: Course, combos: seq<Combo>)
    requires Ranked(db, rank) && Registered(db, start)
    requires forall q <- combos :: Below(db, rank, start, q) && q in start.prerequisites.value
    ensures forall n <- ComboNetworks(db, rank, start, combos) :: GoodPlan(db, start, n)
    decreases rank[start.code], 1, |combos|
  {
    if |combos| > 0 {
      ForComboSound(db, rank, start, combos[0]);
      ComboNetworksSound(db, rank, start, combos[1..]);
    }
  }

  lemma {:induction false} ForComboSound(db: CourseDb, rank: map<string, nat>, start: Course, q: Combo)
    requires Ranked(db, rank) && Registered(db, start) && Below(db, rank, start, q)
    requires q in start.prerequisites.value
    ensures forall n <- ForCombo(db, rank, start, q) :: GoodPlan(db, start, n)
    decreases rank[start.code], 1, 0
  {
    SubListsSound(db, rank, start, q);
    match SubLists(db, rank, start, q)
    case None =>
    case Some(lists) =>
      ProductSpec(lists);
      MergeEachSound(db, start, q, lists, Product(lists));
  }

  /** The plan lists of a combo line up with its untaken members, and each holds good plans for its member. */
  predicate GoodLists(db: CourseDb, q: Combo, lists: seq<seq<Network>>) {
    && |lists| == |Untaken(db, q)|
    && forall i :: 0 <= i < |lists| ==>
         Untaken(db, q)[i] in db.courses && forall n <- lists[i] :: GoodPlan(db, db.courses[Untaken(db, q)[i]], n)
  }

  lemma {:induction false} SubListsSound(db: CourseDb, rank: map<string, nat>, start: Course, q: Combo)
    requires Ranked(db, rank) && Registered(db, start) && Below(db, rank, start, q)
    ensures SubLists(db, rank, start, q).None? <==> exists x <- q :: x !in db.taken && x !in db.courses
    ensures SubLists(db, rank, start, q).Some? ==> GoodLists(db, q, SubLists(db, rank, start, q).value)
    decreases rank[start.code], 0, |q|
  {
    if |q| > 0 {
      SubListsSound(db, rank, start, q[1..]);
      assert forall x <- q :: x == q[0] || x in q[1..];
      var x := q[0];
      if x !in db.taken && x in db.courses {
        var c := db.courses[x];
        AllPrereqNetworksSound(db, rank, c);
      }
    }
  }

  lemma {:induction false} MergeEachSound(db: CourseDb, start: Course, q: Combo, lists: seq<seq<Network>>,
                                          choices: seq<seq<Network>>)
    requires WellKeyed(db) && start.prerequisites.Some? && q in start.prerequisites.value
    requires GoodLists(db, q, lists)
    requires forall c <- choices :: |c| == |lists| && forall i :: 0 <= i < |lists| ==> c[i] in lists[i]
    ensures forall n <- MergeEach(choices, start) :: GoodPlan(db, start, n)
  {
    if |choices| > 0 {
      var c := choices[0];
      if c != [] {
        MergedGood(db, start, q, lists, c);
      }
      MergeEachSound(db, start, q, lists, choices[1..]);
    }
  }

  /** One product tuple, merged under the course, is a good plan for it. */
  lemma {:induction false} MergedGood(db: CourseDb, start: Course, q: Combo, lists: seq<seq<Network>>, c: seq<Network>)
    requires WellKeyed(db) && start.prerequisites.Some? && q in start.prerequisites.value
    requires GoodLists(db, q, lists)
    requires |c| == |lists| > 0 && forall i :: 0 <= i < |lists| ==> c[i] in lists[i]
    ensures GoodPlan(db, start, Merged(c, start))
  {
    var u := Untaken(db, q);
    assert forall i :: 0 <= i < |c| ==> GoodPlan(db, db.courses[u[i]], c[i]);
    assert AllValid(c);
    MergeValid(c, start);
    MergeLongest(c, start);
    UntakenMembers(db, q);
    forall x <- q | x !in db.taken
      ensures exists k :: 0 <= k < |c| && GoalCode(c[k]) == x
    {
      var k :| 0 <= k < |u| && u[k] == x;
      assert GoalCode(c[k]) == db.courses[x].code;
    }
    MergeFeasible(db, c, start);
  }

  // ---- what each combo contributes ----

  /** A course without prerequisites has exactly one plan: itself. */
  lemma {:induction false} NoPrereqsSingle(db: CourseDb, rank: map<string, nat>, start: Course)
    requires Ranked(db, rank) && Registered(db, start) && start.prerequisites == Some([[]])
    ensures AllPrereqNetworks(db, rank, start) == [Single(start)]
  {
  }

  /** The positions of the fully taken combos. */
  function TakenIndices(db: CourseDb, combos: seq<Combo>): set<nat> {
    set i: nat | i < |combos| && AllTaken(db, combos[i])
  }

  /**
   * The first loop yields copies of the single-slot plan, one for each fully taken combo, so at
   * least one exactly when some combo is fully taken.
   */
  lemma {:induction false} TakenSinglesShape(db: CourseDb, combos: seq<Combo>, start: Course)
    ensures forall n <- TakenSingles(db, combos, start) :: n == Single(start)
    ensures TakenSingles(db, combos, start) == [] <==> forall q <- combos :: !AllTaken(db, q)
    ensures |TakenSingles(db, combos, start)| == |TakenIndices(db, combos)|
  {
    if |combos| > 0 {
      TakenSinglesShape(db, combos[1..], start);
      assert forall q <- combos :: q == combos[0] || q in combos[1..];
      TakenIndicesCons(db, combos);
    }
  }

  /** The taken positions of a list are those of its tail moved up by one, plus 0 when the head is taken. */
  lemma {:induction false} TakenIndicesCons(db: CourseDb, combos: seq<Combo>)
    requires |combos| > 0
    ensures |TakenIndices(db, combos)|
            == (if AllTaken(db, combos[0]) then 1 else 0) + |TakenIndices(db, combos[1..])|
  {
    var tail := TakenIndices(db, combos[1..]);
    var moved := Shift(tail);
    var head: set<nat> := if AllTaken(db, combos[0]) then {0} else {};
    forall i: nat ensures i in TakenIndices(db, combos) <==> i in head + moved {
      if i in moved {
        var j :| j in tail && i == j + 1;
        assert combos[i] == combos[1..][j];
      } else if 0 < i < |combos| {
        assert combos[i] == combos[1..][i - 1];
        assert i - 1 !in tail;
      }
    }
    assert TakenIndices(db, combos) == head + moved;
    ShiftCard(tail);
    assert head * moved == {};
  }

  /** Every element moved up by one. */
  function Shift(a: set<nat>): set<nat> {
    set i <- a :: i + 1
  }

  /** Moving every element of a set up by one keeps its size. */
  lemma {:induction false} ShiftCard(a: set<nat>)
    ensures |Shift(a)| == |a|
    decreases |a|
  {
    if a != {} {
      var x :| x in a;
      var rest := a - {x};
      ShiftCard(rest);
      var moved := Shift(a);
      var movedRest := Shift(rest);
      forall y ensures y in moved <==> y in movedRest + {x + 1} {
        if y in moved {
          var i :| i in a && y == i + 1;
          if i != x {
            assert i in rest;
          }
        }
        if y in movedRest {
          var i :| i in rest && y == i + 1;
          assert i in a;
        }
      }
      assert moved == movedRest + {x + 1};
      assert x + 1 !in movedRest;
      assert movedRest * {x + 1} == {};
      assert a == rest + {x} && rest * {x} == {};
    }
  }

  /** A fully taken combo contributes nothing in the second loop: its only tuple is empty and is skipped. */
  lemma {:induction false} TakenComboNoMerge(db: CourseDb, rank: map<string, nat>, start: Course, q: Combo)
    requires Ranked(db, rank) && Registered(db, start) && Below(db, rank, start, q)
    requires AllTaken(db, q)
    ensures ForCombo(db, rank, start, q) == []
  {
    SubListsSound(db, rank, start, q);
    UntakenOfTaken(db, q);
    assert SubLists(db, rank, start, q).Some?;
    var lists := SubLists(db, rank, start, q).value;
    assert lists == [];
    assert Product(lists) == [[]];
    assert MergeEach([[]], start) == [];
    assert ForCombo(db, rank, start, q) == MergeEach(Product(lists), start);
  }

  lemma {:induction false} UntakenOfTaken(db: CourseDb, q: Combo)
    requires AllTaken(db, q)
    ensures Untaken(db, q) == []
  {
    if |q| > 0 {
      assert q[0] in q;
      assert forall x <- q[1..] :: x in q;
      UntakenOfTaken(db, q[1..]);
    }
  }

  /** A combo with an untaken member the registry does not know contributes no plan. */
  lemma {:induction false} MissingComboNothing(db: CourseDb, rank: map<string, nat>, start: Course, q: Combo)
    requires Ranked(db, rank) && Registered(db, start) && Below(db, rank, start, q)
    requires exists x <- q :: x !in db.taken && x !in db.courses
    ensures ForCombo(db, rank, start, q) == []
  {
    SubListsSound(db, rank, start, q);
  }

  lemma {:induction false} MergeEachCount(choices: seq<seq<Network>>, end: Course)
    requires forall c <- choices :: c != []
    ensures |MergeEach(choices, end)| == |choices|
  {
    if |choices| > 0 {
      assert choices[0] in choices;
      assert forall c <- choices[1..] :: c in choices;
      MergeEachCount(choices[1..], end);
    }
  }

  /**
   * A usable combo with untaken members contributes one plan per product tuple: the product of
   * its members' plan counts, so none when some member has no plan.
   */
  lemma {:induction false} ComboCount(db: CourseDb, rank: map<string, nat>, start: Course, q: Combo)
    requires Ranked(db, rank) && Registered(db, start) && Below(db, rank, start, q)
    requires SubLists(db, rank, start, q).Some? && |SubLists(db, rank, start, q).value| > 0
    ensures |ForCombo(db, rank, start, q)| == ProductSize(SubLists(db, rank, start, q).value)
  {
    var lists := SubLists(db, rank, start, q).value;
    ProductSpec(lists);
    MergeEachCount(Product(lists), start);
  }

  /** When no combo is taken and every combo names an unknown course, there is no plan at all. */
  lemma {:induction false} NoUsableComboNoPlan(db: CourseDb, rank: map<string, nat>, start: Course)
    requires Ranked(db, rank) && Registered(db, start)
    requires start.prerequisites.value != [[]]
    requires forall q <- start.prerequisites.value :: exists x <- q :: x !in db.taken && x !in db.courses
    ensures AllPrereqNetworks(db, rank, start) == []
  {
    PrereqsBelow(db, rank, start);
    var prereqs := start.prerequisites.value;
    TakenSinglesShape(db, prereqs, start);
    NoUsableComboNetworks(db, rank, start, prereqs);
  }

  lemma {:induction false} NoUsableComboNetworks(db: CourseDb, rank: map<string, nat>, start: Course, combos: seq<Combo>)
    requires Ranked(db, rank) && Registered(db, start)
    requires forall q <- combos :: Below(db, rank, start, q)
    requires forall q <- combos :: exists x <- q :: x !in db.taken && x !in db.courses
    ensures ComboNetworks(db, rank, start, combos) == []
  {
    if |combos| > 0 {
      assert combos[0] in combos;
      assert forall q <- combos[1..] :: q in combos;
      MissingComboNothing(db, rank, start, combos[0]);
      NoUsableComboNetworks(db, rank, start, combos[1..]);
    }
  }

  // ---- helpers about products and merging ----

  /** One member without plans leaves no tuple at all. */
  lemma {:induction false} ProductSizeZero(lists: seq<seq<Network>>, i: nat)
    requires i < |lists| && lists[i] == []
    ensures ProductSize(lists) == 0
  {
    if i > 0 {
      assert lists[1..][i - 1] == lists[i];
      ProductSizeZero(lists[1..], i - 1);
    }
  }

  /** The merged plans are exactly the merges of the non-empty tuples. */
  lemma {:induction false} MergeEachMembers(choices: seq<seq<Network>>, end: Course)
    ensures forall c <- choices :: c != [] ==> Merged(c, end) in MergeEach(choices, end)
    ensures forall m <- MergeEach(choices, end) :: exists c <- choices :: c != [] && m == Merged(c, end)
  {
    if |choices| > 0 {
      MergeEachMembers(choices[1..], end);
      assert forall c <- choices :: c == choices[0] || c in choices[1..];
      assert forall c <- choices[1..] :: c in choices;
    }
  }
}
