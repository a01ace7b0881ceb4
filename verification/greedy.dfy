/**
 * `DatabaseCourseNetwork.recur` of the graph copy: instead of every plan, one plan per course,
 * the shortest over its prerequisite combos. `Recur` is the code as written; `RecurFixed` is the
 * version that only ever considers combos whose courses are all known.
 */
module GreedyPlanner {
  import opened Outcomes
  import opened Registry
  import opened Plans
  import opened PlanBuilder

  /** What the inner loop over one combo collects: the plans of its untaken registered members, and whether some untaken member is unknown. */
  datatype Collected = Collected(plans: seq<Network>, invalid: bool)

  /**
   * A course without prerequisites, or with a combo already taken, is a plan on its own; an empty
   * combo list fails at `possible_prereqs[0]`. Otherwise the plan of the first combo, with its
   * unknown members dropped, is the starting candidate, and every combo without unknown members
   * replaces it when strictly shorter.
   */
  function Recur(db: CourseDb, rank: map<string, nat>, start: Course): Result<Network>
    requires Ranked(db, rank) && Registered(db, start)
    decreases rank[start.code], 2, 0
  {
    PrereqsBelow(db, rank, start);
    var prereqs := start.prerequisites.value;
    if prereqs == [[]] then Ok(Single(start))
    else if exists q <- prereqs :: AllTaken(db, q) then Ok(Single(start))
    else if |prereqs| == 0 then Err(IndexOutOfRange)
    else
      var first :- Collect(db, rank, start, prereqs[0]);
      var initial :- Merge(first.plans, start);
      Best(db, rank, start, prereqs, initial)
  }

  /** The loop over the members of one combo: taken members are skipped, known ones planned, unknown ones noted. */
  function Collect(db: CourseDb, rank: map<string, nat>, start: Course, q: Combo): Result<Collected>
    requires Ranked(db, rank) && Registered(db, start) && Below(db, rank, start, q)
    decreases rank[start.code], 0, |q|
  {
    if |q| == 0 then Ok(Collected([], false))
    else
      var x := q[0];
      if x in db.taken then Collect(db, rank, start, q[1..])
      else if x in db.courses then
        var p :- Recur(db, rank, db.courses[x]);
        var rest :- Collect(db, rank, start, q[1..]);
        Ok(Collected([p] + rest.plans, rest.invalid))
      else
        var rest :- Collect(db, rank, start, q[1..]);
        Ok(Collected(rest.plans, true))
  }

  /** The loop over all combos, keeping `best` unless a combo without unknown members gives a strictly shorter plan. */
  function Best(db: CourseDb, rank: map<string, nat>, start: Course, combos: seq<Combo>, best: Network): Result<Network>
    requires Ranked(db, rank) && Registered(db, start)
    requires forall q <- combos :: Below(db, rank, start, q)
    decreases rank[start.code], 1, |combos|
  {
    if |combos| == 0 then Ok(best)
    else
      var c :- Collect(db, rank, start, combos[0]);
      if c.invalid then Best(db, rank, start, combos[1..], best)
      else
        var merged :- Merge(c.plans, start);
        Best(db, rank, start, combos[1..], if best.length > merged.length then merged else best)
  }

  // ---- shape ----

  /** A plan for `start` with the layout every constructed plan has and its length its longest path. */
  predicate Shaped(start: Course, n: Network) {
    Valid(n) && LongestIs(n) && n.slots[n.end].course == start
  }

  lemma {:induction false} RecurShape(db: CourseDb, rank: map<string, nat>, start: Course)
    requires Ranked(db, rank) && Registered(db, start)
    ensures Recur(db, rank, start).Ok? ==> Shaped(start, Recur(db, rank, start).value)
    decreases rank[start.code], 2, 0
  {
    PrereqsBelow(db, rank, start);
    var prereqs := start.prerequisites.value;
    if prereqs != [[]] && !(exists q <- prereqs :: AllTaken(db, q)) && |prereqs| > 0 {
      CollectShape(db, rank, start, prereqs[0]);
      var first := Collect(db, rank, start, prereqs[0]);
      if first.Ok? && |first.value.plans| > 0 {
        var initial := Merged(first.value.plans, start);
        MergedShape(first.value.plans, start);
        BestShape(db, rank, start, prereqs, initial);
      }
    }
  }

  lemma {:induction false} CollectShape(db: CourseDb, rank: map<string, nat>, start: Course, q: Combo)
    requires Ranked(db, rank) && Registered(db, start) && Below(db, rank, start, q)
    ensures Collect(db, rank, start, q).Ok? ==>
              forall p <- Collect(db, rank, start, q).value.plans :: Valid(p) && LongestIs(p)
    decreases rank[start.code], 0, |q|
  {
    if |q| > 0 {
      var x := q[0];
      if x !in db.taken && x in db.courses {
        RecurShape(db, rank, db.courses[x]);
      }
      CollectShape(db, rank, start, q[1..]);
    }
  }

  lemma {:induction false} BestShape(db: CourseDb, rank: map<string, nat>, start: Course, combos: seq<Combo>, best: Network)
    requires Ranked(db, rank) && Registered(db, start)
    requires forall q <- combos :: Below(db, rank, start, q)
    requires Shaped(start, best)
    ensures Best(db, rank, start, combos, best).Ok? ==> Shaped(start, Best(db, rank, start, combos, best).value)
    decreases rank[start.code], 1, |combos|
  {
    if |combos| > 0 {
      CollectShape(db, rank, start, combos[0]);
      var c := Collect(db, rank, start, combos[0]);
      if c.Ok? && !c.value.invalid && |c.value.plans| > 0 {
        MergedShape(c.value.plans, start);
        var merged := Merged(c.value.plans, start);
        BestShape(db, rank, start, combos[1..], if best.length > merged.length then merged else best);
      } else if c.Ok? {
        BestShape(db, rank, start, combos[1..], best);
      }
    }
  }

  /** Merging well-shaped plans under `end` gives a well-shaped plan for `end`. */
  lemma {:induction false} MergedShape(ns: seq<Network>, end: Course)
    requires |ns| > 0 && forall p <- ns :: Valid(p) && LongestIs(p)
    ensures Shaped(end, Merged(ns, end))
  {
    assert forall k :: 0 <= k < |ns| ==> ns[k] in ns;
    MergeValid(ns, end);
    MergeLongest(ns, end);
  }

  // ---- which plan is kept ----

  /** The plan `combo` offers when all its untaken members are known. */
  predicate Offers(db: CourseDb, rank: map<string, nat>, start: Course, q: Combo, n: Network)
    requires Ranked(db, rank) && Registered(db, start) && Below(db, rank, start, q)
  {
    var c := Collect(db, rank, start, q);
    c.Ok? && !c.value.invalid && |c.value.plans| > 0 && n == Merged(c.value.plans, start)
  }

  /** Combo `q` offers no plan of length `len` or less: it is invalid, or its merge is longer. */
  predicate Outdone(db: CourseDb, rank: map<string, nat>, start: Course, q: Combo, len: int)
    requires Ranked(db, rank) && Registered(db, start) && Below(db, rank, start, q)
  {
    var c := Collect(db, rank, start, q);
    c.Ok? && (c.value.invalid || (|c.value.plans| > 0 && Merged(c.value.plans, start).length > len))
  }

  /**
   * The loop over combos ends with a plan no longer than `best` nor than any plan a fully known
   * combo offers, and that plan is `best` or one of those offers. Since a candidate is replaced
   * only by a strictly shorter plan, `best` survives every tie, and an offer that wins is the
   * earliest of its length: every combo before it offers only longer plans.
   */
  lemma {:induction false} BestShortest(db: CourseDb, rank: map<string, nat>, start: Course, combos: seq<Combo>, best: Network)
    requires Ranked(db, rank) && Registered(db, start)
    requires forall q <- combos :: Below(db, rank, start, q)
    ensures var r := Best(db, rank, start, combos, best);
            r.Ok? ==>
              && r.value.length <= best.length
              && (forall q <- combos :: Collect(db, rank, start, q).Ok?)
              && (forall q <- combos :: !Collect(db, rank, start, q).value.invalid ==>
                    |Collect(db, rank, start, q).value.plans| > 0 &&
                    r.value.length <= Merged(Collect(db, rank, start, q).value.plans, start).length)
              && (r.value == best || exists q <- combos :: Offers(db, rank, start, q, r.value))
              && (r.value != best ==> r.value.length < best.length)
              && (r.value == best || exists i :: (0 <= i < |combos| && Offers(db, rank, start, combos[i], r.value) &&
                    forall j :: 0 <= j < i ==> Outdone(db, rank, start, combos[j], r.value.length)))
              && ((forall q <- combos :: !Collect(db, rank, start, q).value.invalid ==>
                    best.length <= Merged(Collect(db, rank, start, q).value.plans, start).length) ==> r.value == best)
  {
    BestBounds(db, rank, start, combos, best);
    BestEarliest(db, rank, start, combos, best);
    var r := Best(db, rank, start, combos, best);
    if r.Ok? && r.value != best {
      var i :| 0 <= i < |combos| && Offers(db, rank, start, combos[i], r.value);
      assert combos[i] in combos;
    }
  }

  /** The bounds half of `BestShortest`, by induction over the loop. */
  lemma {:induction false} BestBounds(db: CourseDb, rank: map<string, nat>, start: Course, combos: seq<Combo>, best: Network)
    requires Ranked(db, rank) && Registered(db, start)
    requires forall q <- combos :: Below(db, rank, start, q)
    ensures var r := Best(db, rank, start, combos, best);
            r.Ok? ==>
              && r.value.length <= best.length
              && (forall q <- combos :: Collect(db, rank, start, q).Ok?)
              && (forall q <- combos :: !Collect(db, rank, start, q).value.invalid ==>
                    |Collect(db, rank, start, q).value.plans| > 0 &&
                    r.value.length <= Merged(Collect(db, rank, start, q).value.plans, start).length)
              && (r.value == best || exists q <- combos :: Offers(db, rank, start, q, r.value))
    decreases |combos|
  {
    if |combos| > 0 {
      var c := Collect(db, rank, start, combos[0]);
      assert forall q <- combos[1..] :: q in combos;
      assert forall q <- combos :: q == combos[0] || q in combos[1..];
      if c.Ok? && c.value.invalid {
        BestBounds(db, rank, start, combos[1..], best);
      } else if c.Ok? && |c.value.plans| > 0 {
        var merged := Merged(c.value.plans, start);
        var next := if best.length > merged.length then merged else best;
        BestBounds(db, rank, start, combos[1..], next);
        assert next == merged ==> Offers(db, rank, start, combos[0], merged);
      }
    }
  }

  /** The strict comparison of the loop: `best` is replaced only by a shorter offer, and the winner is the earliest of its length. */
  lemma {:induction false} BestEarliest(db: CourseDb, rank: map<string, nat>, start: Course, combos: seq<Combo>, best: Network)
    requires Ranked(db, rank) && Registered(db, start)
    requires forall q <- combos :: Below(db, rank, start, q)
    ensures var r := Best(db, rank, start, combos, best);
            r.Ok? ==>
              && (r.value != best ==> r.value.length < best.length)
              && (r.value == best || exists i :: (0 <= i < |combos| && Offers(db, rank, start, combos[i], r.value) &&
                    forall j :: 0 <= j < i ==> Outdone(db, rank, start, combos[j], r.value.length)))
    decreases |combos|
  {
    var r := Best(db, rank, start, combos, best);
    if |combos| > 0 && r.Ok? {
      var c := Collect(db, rank, start, combos[0]);
      var tail := combos[1..];
      assert forall q <- tail :: q in combos;
      if c.value.invalid {
        BestEarliest(db, rank, start, tail, best);
        if r.value != best {
          EarliestShift(db, rank, start, combos, r.value);
        }
      } else {
        var merged := Merged(c.value.plans, start);
        var next := if best.length > merged.length then merged else best;
        BestEarliest(db, rank, start, tail, next);
        if r.value != next {
          EarliestShift(db, rank, start, combos, r.value);
        } else if next == merged && merged != best {
          assert Offers(db, rank, start, combos[0], r.value);
        }
      }
    }
  }

  /** An earliest offer among the later combos stays earliest when a first combo that offers only longer plans is put in front. */
  lemma {:induction false} EarliestShift(db: CourseDb, rank: map<string, nat>, start: Course, combos: seq<Combo>, n: Network)
    requires Ranked(db, rank) && Registered(db, start) && |combos| > 0
    requires forall q <- combos :: Below(db, rank, start, q)
    requires Outdone(db, rank, start, combos[0], n.length)
    requires exists i :: 0 <= i < |combos[1..]| && Offers(db, rank, start, combos[1..][i], n) &&
               forall j :: 0 <= j < i ==> Outdone(db, rank, start, combos[1..][j], n.length)
    ensures exists i :: 0 <= i < |combos| && Offers(db, rank, start, combos[i], n) &&
              forall j :: 0 <= j < i ==> Outdone(db, rank, start, combos[j], n.length)
  {
    var i :| 0 <= i < |combos[1..]| && Offers(db, rank, start, combos[1..][i], n) &&
             forall j :: 0 <= j < i ==> Outdone(db, rank, start, combos[1..][j], n.length);
    assert combos[i + 1] == combos[1..][i];
    forall j | 0 <= j < i + 1 ensures Outdone(db, rank, start, combos[j], n.length) {
      if j > 0 {
        assert combos[j] == combos[1..][j - 1];
      }
    }
  }

  /** Early exits of `recur`: a taken combo (the empty combo included) gives the course alone; no combo at all fails. */
  lemma {:induction false} RecurEarly(db: CourseDb, rank: map<string, nat>, start: Course)
    requires Ranked(db, rank) && Registered(db, start)
    ensures (exists q <- start.prerequisites.value :: AllTaken(db, q)) ==> Recur(db, rank, start) == Ok(Single(start))
    ensures start.prerequisites.value == [] ==> Recur(db, rank, start) == Err(IndexOutOfRange)
  {
  }

  /**
   * Past the early exits, `recur` returns a plan no longer than what any fully known combo offers,
   * and it is either the starting candidate or one of those offers; the candidate survives ties,
   * and an offer that replaces it is strictly shorter and the earliest of its length. (The `Below` requirement
   * follows from `Ranked`, see `PrereqsBelow`; it is stated so the contract can name `Collect`.)
   */
  lemma {:induction false} RecurShortest(db: CourseDb, rank: map<string, nat>, start: Course)
    requires Ranked(db, rank) && Registered(db, start)
    requires forall q <- start.prerequisites.value :: Below(db, rank, start, q)
    requires !(exists q <- start.prerequisites.value :: AllTaken(db, q))
    ensures var r := Recur(db, rank, start);
            var prereqs := start.prerequisites.value;
            r.Ok? ==>
              && |prereqs| > 0
              && Collect(db, rank, start, prereqs[0]).Ok?
              && |Collect(db, rank, start, prereqs[0]).value.plans| > 0
              && (forall q <- prereqs :: Collect(db, rank, start, q).Ok?)
              && (forall q <- prereqs :: !Collect(db, rank, start, q).value.invalid ==>
                    |Collect(db, rank, start, q).value.plans| > 0 &&
                    r.value.length <= Merged(Collect(db, rank, start, q).value.plans, start).length)
              && (r.value == Merged(Collect(db, rank, start, prereqs[0]).value.plans, start)
                  || exists q <- prereqs :: Offers(db, rank, start, q, r.value))
              && (r.value != Merged(Collect(db, rank, start, prereqs[0]).value.plans, start) ==>
                    r.value.length < Merged(Collect(db, rank, start, prereqs[0]).value.plans, start).length)
              && (r.value == Merged(Collect(db, rank, start, prereqs[0]).value.plans, start)
                  || exists i :: (0 <= i < |prereqs| && Offers(db, rank, start, prereqs[i], r.value) &&
                       forall j :: 0 <= j < i ==> Outdone(db, rank, start, prereqs[j], r.value.length)))
  {
    PrereqsBelow(db, rank, start);
    var prereqs := start.prerequisites.value;
    assert [] !in prereqs;
    if |prereqs| > 0 {
      var first := Collect(db, rank, start, prereqs[0]);
      if first.Ok? && |first.value.plans| > 0 {
        BestShortest(db, rank, start, prereqs, Merged(first.value.plans, start));
      }
    }
  }

  // ---- the corrected recursion ----

  /**
   * `recur` as its loop evidently means it: a combo counts only when every untaken member is
   * registered and has a plan, the shortest such combo wins (the earliest on ties), and when
   * no combo qualifies there is no plan rather than one that skips a course.
   */
  function RecurFixed(db: CourseDb, rank: map<string, nat>, start: Course): Option<Network>
    requires Ranked(db, rank) && Registered(db, start)
    decreases rank[start.code], 2, 0
  {
    PrereqsBelow(db, rank, start);
    var prereqs := start.prerequisites.value;
    if exists q <- prereqs :: AllTaken(db, q) then Some(Single(start))
    else BestFixed(db, rank, start, prereqs, None)
  }

  /** The plans of the untaken members of a combo, in order, or `None` when one of them has none. */
  function CollectFixed(db: CourseDb, rank: map<string, nat>, start: Course, q: Combo): Option<seq<Network>>
    requires Ranked(db, rank) && Registered(db, start) && Below(db, rank, start, q)
    decreases rank[start.code], 0, |q|
  {
    if |q| == 0 then Some([])
    else
      var x := q[0];
      if x in db.taken then CollectFixed(db, rank, start, q[1..])
      else if x !in db.courses then None
      else match RecurFixed(db, rank, db.courses[x])
        case None => None
        case Some(p) =>
          match CollectFixed(db, rank, start, q[1..])
          case None => None
          case Some(ps) => Some([p] + ps)
  }

  /** The plan a fully planned combo gives: the course alone when nothing is left to take, else the merge. */
  function ComboPlan(plans: seq<Network>, start: Course): Network
  {
    if |plans| == 0 then Single(start) else Merged(plans, start)
  }

  function BestFixed(db: CourseDb, rank: map<string, nat>, start: Course, combos: seq<Combo>, best: Option<Network>): Option<Network>
    requires Ranked(db, rank) && Registered(db, start)
    requires forall q <- combos :: Below(db, rank, start, q)
    decreases rank[start.code], 1, |combos|
  {
    if |combos| == 0 then best
    else match CollectFixed(db, rank, start, combos[0])
      case None => BestFixed(db, rank, start, combos[1..], best)
      case Some(plans) =>
        var m := ComboPlan(plans, start);
        BestFixed(db, rank, start, combos[1..], if best.Some? && best.value.length <= m.length then best else Some(m))
  }

  /** One plan per untaken member of the combo, each a good plan for that member. */
  predicate GoodRow(db: CourseDb, q: Combo, ps: seq<Network>) {
    && |ps| == |Untaken(db, q)|
    && forall i :: 0 <= i < |ps| ==> Untaken(db, q)[i] in db.courses && GoodPlan(db, db.courses[Untaken(db, q)[i]], ps[i])
  }

  /** Every plan the corrected recursion returns can be followed: each course's prerequisites are met in time. */
  lemma {:induction false} RecurFixedSound(db: CourseDb, rank: map<string, nat>, start: Course)
    requires Ranked(db, rank) && Registered(db, start)
    ensures RecurFixed(db, rank, start).Some? ==> GoodPlan(db, start, RecurFixed(db, rank, start).value)
    decreases rank[start.code], 2, 0
  {
    PrereqsBelow(db, rank, start);
    var prereqs := start.prerequisites.value;
    if q :| q in prereqs && AllTaken(db, q) {
      SingleGood(db, start, q);
    } else {
      BestFixedSound(db, rank, start, prereqs, None);
    }
  }

  lemma {:induction false} CollectFixedSound(db: CourseDb, rank: map<string, nat>, start: Course, q: Combo)
    requires Ranked(db, rank) && Registered(db, start) && Below(db, rank, start, q)
    ensures CollectFixed(db, rank, start, q).Some? ==> GoodRow(db, q, CollectFixed(db, rank, start, q).value)
    decreases rank[start.code], 0, |q|
  {
    if |q| > 0 {
      var x := q[0];
      if x !in db.taken && x in db.courses {
        RecurFixedSound(db, rank, db.courses[x]);
      }
      CollectFixedSound(db, rank, start, q[1..]);
    }
  }

  lemma {:induction false} BestFixedSound(db: CourseDb, rank: map<string, nat>, start: Course, combos: seq<Combo>,
                                          best: Option<Network>)
    requires Ranked(db, rank) && Registered(db, start)
    requires forall q <- combos :: Below(db, rank, start, q) && q in start.prerequisites.value
    requires best.Some? ==> GoodPlan(db, start, best.value)
    ensures BestFixed(db, rank, start, combos, best).Some? ==> GoodPlan(db, start, BestFixed(db, rank, start, combos, best).value)
    decreases rank[start.code], 1, |combos|
  {
    if |combos| > 0 {
      assert combos[0] in combos;
      assert forall q <- combos[1..] :: q in combos;
      CollectFixedSound(db, rank, start, combos[0]);
      match CollectFixed(db, rank, start, combos[0])
      case None =>
        BestFixedSound(db, rank, start, combos[1..], best);
      case Some(plans) =>
        ComboPlanGood(db, start, combos[0], plans);
        var m := ComboPlan(plans, start);
        BestFixedSound(db, rank, start, combos[1..], if best.Some? && best.value.length <= m.length then best else Some(m));
    }
  }

  lemma {:induction false} ComboPlanGood(db: CourseDb, start: Course, q: Combo, plans: seq<Network>)
    requires WellKeyed(db) && start.prerequisites.Some? && q in start.prerequisites.value
    requires GoodRow(db, q, plans)
    ensures GoodPlan(db, start, ComboPlan(plans, start))
  {
    if |plans| == 0 {
      UntakenMembers(db, q);
      assert Untaken(db, q) == [];
      SingleGood(db, start, q);
    } else {
      var lists := seq(|plans|, i requires 0 <= i < |plans| => [plans[i]]);
      MergedGood(db, start, q, lists, plans);
    }
  }

  // ---- the corrected recursion against the exhaustive builder ----

  /** A plan no child of which is longer than the matching child of another is no longer than it. */
  lemma {:induction false} MergedLengthMono(a: seq<Network>, b: seq<Network>, end: Course)
    requires |a| == |b| > 0 && forall i :: 0 <= i < |a| ==> a[i].length <= b[i].length
    ensures Merged(a, end).length <= Merged(b, end).length
  {
    var k :| 0 <= k < |a| && a[k].length == MaxLength(a);
    assert MaxLength(a) <= b[k].length <= MaxLength(b);
  }

  /** Every good plan for a course lasts at least as long as the course itself. */
  lemma {:induction false} GoodPlanLength(db: CourseDb, start: Course, n: Network)
    requires GoodPlan(db, start, n)
    ensures start.duration <= n.length
  {
    assert Chain(n, n.end) == start.duration;
  }

  /**
   * The corrected recursion picks one of the plans the exhaustive builder lists, none of those is
   * shorter, and it finds no plan exactly when the builder lists none.
   */
  lemma {:induction false} RecurMatches(db: CourseDb, rank: map<string, nat>, start: Course)
    requires Ranked(db, rank) && Registered(db, start)
    ensures RecurFixed(db, rank, start).None? <==> AllPrereqNetworks(db, rank, start) == []
    ensures RecurFixed(db, rank, start).Some? ==>
              && RecurFixed(db, rank, start).value in AllPrereqNetworks(db, rank, start)
              && forall m <- AllPrereqNetworks(db, rank, start) :: RecurFixed(db, rank, start).value.length <= m.length
    decreases rank[start.code], 2, 0
  {
    PrereqsBelow(db, rank, start);
    var prereqs := start.prerequisites.value;
    var all := AllPrereqNetworks(db, rank, start);
    if prereqs == [[]] || exists q <- prereqs :: AllTaken(db, q) {
      assert prereqs == [[]] ==> AllTaken(db, prereqs[0]);
      assert RecurFixed(db, rank, start) == Some(Single(start));
      if prereqs != [[]] {
        TakenSinglesShape(db, prereqs, start);
        var q :| q in prereqs && AllTaken(db, q);
        var t := TakenSingles(db, prereqs, start);
        assert t != [] && t[0] in t;
        assert Single(start) in all;
      }
      AllPrereqNetworksSound(db, rank, start);
      forall m <- all
        ensures start.duration <= m.length
      {
        GoodPlanLength(db, start, m);
      }
    } else {
      TakenSinglesShape(db, prereqs, start);
      BestMatches(db, rank, start, prereqs, None);
    }
  }

  lemma {:induction false} BestMatches(db: CourseDb, rank: map<string, nat>, start: Course, combos: seq<Combo>,
                                       best: Option<Network>)
    requires Ranked(db, rank) && Registered(db, start)
    requires forall q <- combos :: Below(db, rank, start, q) && !AllTaken(db, q)
    ensures var r := BestFixed(db, rank, start, combos, best);
            var ns := ComboNetworks(db, rank, start, combos);
            && (r.None? <==> best.None? && ns == [])
            && (r.Some? ==> (best.Some? && r.value == best.value) || r.value in ns)
            && (r.Some? && best.Some? ==> r.value.length <= best.value.length)
            && (r.Some? ==> forall m <- ns :: r.value.length <= m.length)
    decreases rank[start.code], 1, |combos|
  {
    if |combos| > 0 {
      var q := combos[0];
      assert q in combos;
      assert forall q' <- combos[1..] :: q' in combos;
      ComboMatches(db, rank, start, q);
      match CollectFixed(db, rank, start, q)
      case None =>
        BestMatches(db, rank, start, combos[1..], best);
      case Some(ps) =>
        var m := ComboPlan(ps, start);
        var next := if best.Some? && best.value.length <= m.length then best else Some(m);
        BestMatches(db, rank, start, combos[1..], next);
    }
  }

  /** For a combo not yet taken, the corrected plan is the shortest of the builder's plans for it, if it has any. */
  lemma {:induction false} ComboMatches(db: CourseDb, rank: map<string, nat>, start: Course, q: Combo)
    requires Ranked(db, rank) && Registered(db, start) && Below(db, rank, start, q)
    requires !AllTaken(db, q)
    ensures CollectFixed(db, rank, start, q).None? ==> ForCombo(db, rank, start, q) == []
    ensures CollectFixed(db, rank, start, q).Some? ==>
              && ComboPlan(CollectFixed(db, rank, start, q).value, start) in ForCombo(db, rank, start, q)
              && forall m <- ForCombo(db, rank, start, q) :: ComboPlan(CollectFixed(db, rank, start, q).value, start).length <= m.length
    decreases rank[start.code], 1, 0
  {
    CollectMatches(db, rank, start, q);
    SubListsSound(db, rank, start, q);
    match SubLists(db, rank, start, q)
    case None =>
    case Some(lists) =>
      match CollectFixed(db, rank, start, q)
      case None =>
        NoTuple(lists, start);
      case Some(ps) =>
        UntakenMembers(db, q);
        var x :| x in q && x !in db.taken;
        assert x in Untaken(db, q);
        ShortestTuple(lists, ps, start);
  }

  lemma {:induction false} NoTuple(lists: seq<seq<Network>>, end: Course)
    requires exists i :: 0 <= i < |lists| && lists[i] == []
    ensures MergeEach(Product(lists), end) == []
  {
    var i :| 0 <= i < |lists| && lists[i] == [];
    ProductSizeZero(lists, i);
    ProductSpec(lists);
  }

  /** Merging the shortest choice for every member gives the shortest of all the merged tuples. */
  lemma {:induction false} ShortestTuple(lists: seq<seq<Network>>, ps: seq<Network>, end: Course)
    requires |ps| == |lists| > 0
    requires forall i :: 0 <= i < |ps| ==> ps[i] in lists[i] && forall m <- lists[i] :: ps[i].length <= m.length
    ensures Merged(ps, end) in MergeEach(Product(lists), end)
    ensures forall m <- MergeEach(Product(lists), end) :: Merged(ps, end).length <= m.length
  {
    ProductSpec(lists);
    MergeEachMembers(Product(lists), end);
    assert ps in Product(lists);
    forall m <- MergeEach(Product(lists), end)
      ensures Merged(ps, end).length <= m.length
    {
      var c :| c in Product(lists) && c != [] && m == Merged(c, end);
      MergedLengthMono(ps, c, end);
    }
  }

  /** Member by member, the corrected recursion picks one of the builder's plans and none of those is shorter. */
  lemma {:induction false} CollectMatches(db: CourseDb, rank: map<string, nat>, start: Course, q: Combo)
    requires Ranked(db, rank) && Registered(db, start) && Below(db, rank, start, q)
    ensures var f := CollectFixed(db, rank, start, q);
            var s := SubLists(db, rank, start, q);
            && (f.None? ==> s.None? || exists i :: 0 <= i < |s.value| && s.value[i] == [])
            && (f.Some? ==>
                  && s.Some? && |f.value| == |s.value|
                  && forall i :: 0 <= i < |f.value| ==>
                       f.value[i] in s.value[i] && forall m <- s.value[i] :: f.value[i].length <= m.length)
    decreases rank[start.code], 0, |q|
  {
    if |q| > 0 {
      CollectMatches(db, rank, start, q[1..]);
      var x := q[0];
      if x !in db.taken && x in db.courses {
        var c := db.courses[x];
        RecurMatches(db, rank, c);
        match SubLists(db, rank, start, q[1..])
        case None =>
        case Some(lists) =>
          var s := [AllPrereqNetworks(db, rank, c)] + lists;
          assert SubLists(db, rank, start, q) == Some(s);
          assert forall i :: 1 <= i < |s| ==> s[i] == lists[i - 1];
          match CollectFixed(db, rank, start, q[1..])
          case None =>
            if RecurFixed(db, rank, c).Some? {
              var i :| 0 <= i < |lists| && lists[i] == [];
              assert s[i + 1] == [];
            } else {
              assert s[0] == [];
            }
          case Some(ps) =>
            if RecurFixed(db, rank, c).None? {
              assert s[0] == [];
            } else {
              var f := [RecurFixed(db, rank, c).value] + ps;
              assert CollectFixed(db, rank, start, q) == Some(f);
              assert forall i :: 1 <= i < |f| ==> f[i] == ps[i - 1];
            }
      }
    }
  }

  // ---- two registries on which the code as written goes wrong ----

  /** An introductory half-course: one term, no prerequisites. */
  function Intro(code: string): Course {
    Course(code, 1, 1, Some([[]]))
  }

  /** `AAA100H1` and `BBB100H1` (introductory) and `target`; nothing taken. `XXX100H1` is not registered. */
  function ExampleDb(target: Course): CourseDb {
    CourseDb(map["AAA100H1" := Intro("AAA100H1"), "BBB100H1" := Intro("BBB100H1"), target.code := target], {})
  }

  function ExampleRank(): map<string, nat> {
    map["AAA100H1" := 0, "BBB100H1" := 0, "TTT200H1" := 1]
  }

  /**
   * `TTT200H1` needs `XXX100H1` and `AAA100H1`, or `BBB100H1`. The starting candidate drops the
   * unknown `XXX100H1` and plans `AAA100H1` then `TTT200H1`; the known combo `BBB100H1` is no
   * shorter, so that plan is returned, although `TTT200H1` cannot be taken after `AAA100H1`
   * alone. The corrected recursion plans `BBB100H1` then `TTT200H1` instead.
   */
  lemma {:induction false} RecurKeepsUnknownCombo(t: Course)
    requires t == Course("TTT200H1", 1, 1, Some([["XXX100H1", "AAA100H1"], ["BBB100H1"]]))
    ensures Ranked(ExampleDb(t), ExampleRank()) && Registered(ExampleDb(t), t)
    ensures Recur(ExampleDb(t), ExampleRank(), t).Ok?
    ensures !Feasible(ExampleDb(t), Recur(ExampleDb(t), ExampleRank(), t).value)
    ensures RecurFixed(ExampleDb(t), ExampleRank(), t).Some?
    ensures Feasible(ExampleDb(t), RecurFixed(ExampleDb(t), ExampleRank(), t).value)
  {
    ExampleRanked(t);
    ExampleKept(t);
    ExampleInfeasible(t);
    ExampleFixedPicks(t);
    RecurFixedSound(ExampleDb(t), ExampleRank(), t);
  }

  lemma {:induction false} ExampleRanked(t: Course)
    requires t == Course("TTT200H1", 1, 1, Some([["XXX100H1", "AAA100H1"], ["BBB100H1"]]))
             || t == Course("TTT200H1", 1, 1, Some([["XXX100H1"], ["BBB100H1"]]))
    ensures Ranked(ExampleDb(t), ExampleRank()) && Registered(ExampleDb(t), t)
    ensures ExampleDb(t).taken == {} && "XXX100H1" !in ExampleDb(t).courses
  {
  }

  /** Neither combo of the example targets is already taken. */
  lemma {:induction false} ExampleNoneTaken(t: Course)
    requires t == Course("TTT200H1", 1, 1, Some([["XXX100H1", "AAA100H1"], ["BBB100H1"]]))
             || t == Course("TTT200H1", 1, 1, Some([["XXX100H1"], ["BBB100H1"]]))
    ensures t.prerequisites.Some? && |t.prerequisites.value| == 2 && t.prerequisites.value != [[]]
    ensures !exists q <- t.prerequisites.value :: AllTaken(ExampleDb(t), q)
  {
    var db, combos := ExampleDb(t), t.prerequisites.value;
    assert db.taken == {};
    assert combos[0][0] in combos[0] && combos[1][0] in combos[1];
    assert !AllTaken(db, combos[0]) && !AllTaken(db, combos[1]);
    assert forall q <- combos :: q == combos[0] || q == combos[1];
  }

  /** An introductory course is a plan on its own, for the recursion as written and as corrected. */
  lemma {:induction false} ExampleIntro(t: Course, x: string)
    requires t == Course("TTT200H1", 1, 1, Some([["XXX100H1", "AAA100H1"], ["BBB100H1"]]))
             || t == Course("TTT200H1", 1, 1, Some([["XXX100H1"], ["BBB100H1"]]))
    requires x == "AAA100H1" || x == "BBB100H1"
    ensures Ranked(ExampleDb(t), ExampleRank()) && Registered(ExampleDb(t), Intro(x))
    ensures x in ExampleDb(t).courses && x !in ExampleDb(t).taken && ExampleDb(t).courses[x] == Intro(x)
    ensures Recur(ExampleDb(t), ExampleRank(), Intro(x)) == Ok(Single(Intro(x)))
    ensures RecurFixed(ExampleDb(t), ExampleRank(), Intro(x)) == Some(Single(Intro(x)))
  {
    ExampleRanked(t);
    var db := ExampleDb(t);
    assert db.courses[x] == Intro(x);
    var none: Combo := [];
    assert AllTaken(db, none) && none in Intro(x).prerequisites.value;
  }

  /** A combo made of one introductory course plans that course alone. */
  lemma {:induction false} ExampleCollectOne(t: Course, x: string)
    requires t == Course("TTT200H1", 1, 1, Some([["XXX100H1", "AAA100H1"], ["BBB100H1"]]))
             || t == Course("TTT200H1", 1, 1, Some([["XXX100H1"], ["BBB100H1"]]))
    requires x == "AAA100H1" || x == "BBB100H1"
    ensures Ranked(ExampleDb(t), ExampleRank()) && Registered(ExampleDb(t), t)
    ensures Below(ExampleDb(t), ExampleRank(), t, [x])
    ensures Collect(ExampleDb(t), ExampleRank(), t, [x]) == Ok(Collected([Single(Intro(x))], false))
    ensures CollectFixed(ExampleDb(t), ExampleRank(), t, [x]) == Some([Single(Intro(x))])
  {
    ExampleRanked(t);
    ExampleIntro(t, x);
    assert [x][1..] == [] && [Single(Intro(x))] + [] == [Single(Intro(x))];
  }

  /** The first combo keeps `AAA100H1` and notes the unknown `XXX100H1`; the second plans `BBB100H1`. */
  lemma {:induction false} ExampleCollects(t: Course)
    requires t == Course("TTT200H1", 1, 1, Some([["XXX100H1", "AAA100H1"], ["BBB100H1"]]))
    ensures Ranked(ExampleDb(t), ExampleRank()) && Registered(ExampleDb(t), t)
    ensures var db, rank, combos := ExampleDb(t), ExampleRank(), t.prerequisites.value;
            && Collect(db, rank, t, combos[0]) == Ok(Collected([Single(Intro("AAA100H1"))], true))
            && Collect(db, rank, t, combos[1]) == Ok(Collected([Single(Intro("BBB100H1"))], false))
  {
    ExampleRanked(t);
    ExampleCollectOne(t, "AAA100H1");
    ExampleCollectOne(t, "BBB100H1");
    var combos := t.prerequisites.value;
    assert combos[0][1..] == ["AAA100H1"] && combos[1] == ["BBB100H1"];
  }

  /** Merging a single child adds the goal's duration to that child's length. */
  lemma {:induction false} MergedOneLength(n: Network, end: Course)
    ensures Merged([n], end).length == n.length + end.duration
  {
  }

  /** The loop over both combos keeps the starting candidate: `BBB100H1` then `TTT200H1` is no shorter. */
  lemma {:induction false} ExampleBest(t: Course)
    requires t == Course("TTT200H1", 1, 1, Some([["XXX100H1", "AAA100H1"], ["BBB100H1"]]))
    ensures Ranked(ExampleDb(t), ExampleRank()) && Registered(ExampleDb(t), t)
    ensures forall q <- t.prerequisites.value :: Below(ExampleDb(t), ExampleRank(), t, q)
    ensures var initial := Merged([Single(Intro("AAA100H1"))], t);
            Best(ExampleDb(t), ExampleRank(), t, t.prerequisites.value, initial) == Ok(initial)
  {
    ExampleCollects(t);
    var db, rank := ExampleDb(t), ExampleRank();
    PrereqsBelow(db, rank, t);
    var combos := t.prerequisites.value;
    var initial := Merged([Single(Intro("AAA100H1"))], t);
    MergedOneLength(Single(Intro("AAA100H1")), t);
    MergedOneLength(Single(Intro("BBB100H1")), t);
    assert combos[1..][1..] == [];
    assert Best(db, rank, t, combos[1..], initial) == Ok(initial);
  }

  /** The starting candidate, `AAA100H1` then `TTT200H1`, is kept: the other combo is no shorter. */
  lemma {:induction false} ExampleKept(t: Course)
    requires t == Course("TTT200H1", 1, 1, Some([["XXX100H1", "AAA100H1"], ["BBB100H1"]]))
    ensures Ranked(ExampleDb(t), ExampleRank()) && Registered(ExampleDb(t), t)
    ensures Recur(ExampleDb(t), ExampleRank(), t) == Ok(Merged([Single(Intro("AAA100H1"))], t))
  {
    ExampleNoneTaken(t);
    ExampleCollects(t);
    ExampleBest(t);
  }

  /** `TTT200H1` right after `AAA100H1` alone is not allowed: neither of its combos is met. */
  lemma {:induction false} ExampleInfeasible(t: Course)
    requires t == Course("TTT200H1", 1, 1, Some([["XXX100H1", "AAA100H1"], ["BBB100H1"]]))
    ensures !Feasible(ExampleDb(t), Merged([Single(Intro("AAA100H1"))], t))
  {
    var db := ExampleDb(t);
    var a := Intro("AAA100H1");
    var initial := Merged([Single(a)], t);
    MergedShape([Single(a)], t);
    MergedGoalPreds([Single(a)], t);
    assert SlotCount([Single(a)]) == 1;
    assert PredCodes(initial, 1) == {"AAA100H1"};
    assert initial.slots[1].course == t && db.taken == {};
    var combos := t.prerequisites.value;
    assert combos[0][0] in combos[0] && combos[1][0] in combos[1];
    assert forall q <- combos :: q == combos[0] || q == combos[1];
    assert !Ready(db, initial, 1);
  }

  /** On either example target the corrected recursion skips the combo with `XXX100H1` and plans `BBB100H1`. */
  lemma {:induction false} ExampleFixedPicks(t: Course)
    requires t == Course("TTT200H1", 1, 1, Some([["XXX100H1", "AAA100H1"], ["BBB100H1"]]))
             || t == Course("TTT200H1", 1, 1, Some([["XXX100H1"], ["BBB100H1"]]))
    ensures Ranked(ExampleDb(t), ExampleRank()) && Registered(ExampleDb(t), t)
    ensures RecurFixed(ExampleDb(t), ExampleRank(), t) == Some(Merged([Single(Intro("BBB100H1"))], t))
  {
    ExampleRanked(t);
    ExampleNoneTaken(t);
    ExampleCollectOne(t, "BBB100H1");
    var db, rank := ExampleDb(t), ExampleRank();
    PrereqsBelow(db, rank, t);
    var combos := t.prerequisites.value;
    assert combos[0][0] == "XXX100H1" && combos[1] == ["BBB100H1"] && combos[1..][1..] == [];
    assert CollectFixed(db, rank, t, combos[0]) == None;
  }

  /**
   * `TTT200H1` needs the unknown `XXX100H1`, or `BBB100H1`. The starting candidate has no plan to
   * merge and `max` of the empty list fails, although `BBB100H1` then `TTT200H1` is a plan the
   * corrected recursion finds.
   */
  lemma {:induction false} RecurFailsOnUnknownFirst(t: Course)
    requires t == Course("TTT200H1", 1, 1, Some([["XXX100H1"], ["BBB100H1"]]))
    ensures Ranked(ExampleDb(t), ExampleRank()) && Registered(ExampleDb(t), t)
    ensures Recur(ExampleDb(t), ExampleRank(), t) == Err(EmptyMaximum)
    ensures RecurFixed(ExampleDb(t), ExampleRank(), t).Some?
  {
    ExampleRanked(t);
    ExampleNoneTaken(t);
    ExampleFixedPicks(t);
    ExampleUnknownFirst(t);
  }

  /** The first combo of the second target collects nothing and notes the unknown `XXX100H1`. */
  lemma {:induction false} ExampleUnknownFirst(t: Course)
    requires t == Course("TTT200H1", 1, 1, Some([["XXX100H1"], ["BBB100H1"]]))
    ensures Ranked(ExampleDb(t), ExampleRank()) && Registered(ExampleDb(t), t)
    ensures Below(ExampleDb(t), ExampleRank(), t, t.prerequisites.value[0])
    ensures Collect(ExampleDb(t), ExampleRank(), t, t.prerequisites.value[0]) == Ok(Collected([], true))
  {
    ExampleRanked(t);
    var combos := t.prerequisites.value;
    assert combos[0] == ["XXX100H1"] && combos[0][1..] == [];
  }
}
