/**
 * The requirement tree shared by the three copies of the engine (`RequirementTree`,
 * `RequirementNode`, `_Node`): its truth value against a set of courses, the leaves it
 * mentions, and the list of course sets ("combos") that satisfy it.
 */
module Requirements {
  import opened CourseFormat

  /** One way to satisfy a requirement: a set of course codes. */
  type Combo = set<string>

  /**
   * A parsed requirement. `text` is the bracket-stripped requirement the node was built from;
   * a `Branch` also holds its separator (`^` for and, anything else acts as or).
   */
  datatype Node =
    | Leaf(text: string)
    | Branch(text: string, sep: char, left: Node, right: Node)

  /** The leaf test every method of the source applies to a node's text. */
  predicate IsLeafText(t: string) {
    t == "" || IsCourseFormat(t)
  }

  /**
   * The representation invariant the parser establishes: a node has children exactly when its
   * text is neither empty nor a course code, so testing the shape and testing the text agree.
   */
  predicate WellFormed(n: Node) {
    match n
    case Leaf(t) => IsLeafText(t)
    case Branch(t, _, l, r) => !IsLeafText(t) && WellFormed(l) && WellFormed(r)
  }

  /** `get_truth_value`: a leaf holds when its text is empty or among the courses. */
  function TruthValue(n: Node, courses: set<string>): bool
  {
    match n
    case Leaf(t) => t in courses || t == ""
    case Branch(_, sep, l, r) =>
      if sep == '^' then TruthValue(l, courses) && TruthValue(r, courses)
      else TruthValue(l, courses) || TruthValue(r, courses)
  }

  /** `get_leaves_linked`: the texts of all leaves below the node. */
  function LeavesLinked(n: Node): set<string>
  {
    match n
    case Leaf(t) => {t}
    case Branch(_, _, l, r) => LeavesLinked(l) + LeavesLinked(r)
  }

  predicate NoDuplicates(cs: seq<Combo>) {
    forall i, j :: 0 <= i < j < |cs| ==> cs[i] != cs[j]
  }

  /** Appends `c` to the combos found so far unless it is already among them. */
  function AddUnique(acc: seq<Combo>, c: Combo): seq<Combo>
  {
    if c in acc then acc else acc + [c]
  }

  /** The inner loop of the and-case: one left combo united with every right combo, in order. */
  function AndRow(acc: seq<Combo>, l: Combo, rs: seq<Combo>): seq<Combo>
    decreases |rs|
  {
    if |rs| == 0 then acc else AndRow(AddUnique(acc, l + rs[0]), l, rs[1..])
  }

  /** The outer loop of the and-case. */
  function AndAll(acc: seq<Combo>, ls: seq<Combo>, rs: seq<Combo>): seq<Combo>
    decreases |ls|
  {
    if |ls| == 0 then acc else AndAll(AndRow(acc, ls[0], rs), ls[1..], rs)
  }

  /**
   * The combos of an and-node: every union of a left combo and a right combo, each kept once,
   * and nothing else.
   */
  function AndCombos(ls: seq<Combo>, rs: seq<Combo>): (r: seq<Combo>)
    ensures NoDuplicates(r)
    ensures forall c :: c in r <==> exists i, j :: 0 <= i < |ls| && 0 <= j < |rs| && c == ls[i] + rs[j]
  {
    AndAllSpec([], ls, rs);
    AndAll([], ls, rs)
  }

  lemma {:induction false} AddUniqueSpec(acc: seq<Combo>, c: Combo)
    ensures forall x :: x in AddUnique(acc, c) <==> x in acc || x == c
    ensures NoDuplicates(acc) ==> NoDuplicates(AddUnique(acc, c))
  {
  }

  lemma {:induction false} AndRowSpec(acc: seq<Combo>, l: Combo, rs: seq<Combo>)
    ensures forall x :: x in AndRow(acc, l, rs) <==> x in acc || exists j :: 0 <= j < |rs| && x == l + rs[j]
    ensures NoDuplicates(acc) ==> NoDuplicates(AndRow(acc, l, rs))
    decreases |rs|
  {
    if |rs| > 0 {
      var acc' := AddUnique(acc, l + rs[0]);
      AddUniqueSpec(acc, l + rs[0]);
      AndRowSpec(acc', l, rs[1..]);
      forall x
        ensures x in AndRow(acc, l, rs) <==> x in acc || exists j :: 0 <= j < |rs| && x == l + rs[j]
      {
        if exists j :: 0 <= j < |rs| && x == l + rs[j] {
          var j :| 0 <= j < |rs| && x == l + rs[j];
          if j > 0 {
            assert x == l + rs[1..][j - 1];
          }
        }
        if exists j :: 0 <= j < |rs| - 1 && x == l + rs[1..][j] {
          var j :| 0 <= j < |rs| - 1 && x == l + rs[1..][j];
          assert x == l + rs[j + 1];
        }
      }
    }
  }

  lemma {:induction false} AndAllSpec(acc: seq<Combo>, ls: seq<Combo>, rs: seq<Combo>)
    ensures forall x :: x in AndAll(acc, ls, rs) <==>
              x in acc || exists i, j :: 0 <= i < |ls| && 0 <= j < |rs| && x == ls[i] + rs[j]
    ensures NoDuplicates(acc) ==> NoDuplicates(AndAll(acc, ls, rs))
    decreases |ls|
  {
    if |ls| > 0 {
      var acc' := AndRow(acc, ls[0], rs);
      AndRowSpec(acc, ls[0], rs);
      AndAllSpec(acc', ls[1..], rs);
      forall x
        ensures x in AndAll(acc, ls, rs) <==>
                x in acc || exists i, j :: 0 <= i < |ls| && 0 <= j < |rs| && x == ls[i] + rs[j]
      {
        if exists i, j :: 0 <= i < |ls| && 0 <= j < |rs| && x == ls[i] + rs[j] {
          var i, j :| 0 <= i < |ls| && 0 <= j < |rs| && x == ls[i] + rs[j];
          if i > 0 {
            assert x == ls[1..][i - 1] + rs[j];
          }
        }
        if exists i, j :: 0 <= i < |ls| - 1 && 0 <= j < |rs| && x == ls[1..][i] + rs[j] {
          var i, j :| 0 <= i < |ls| - 1 && 0 <= j < |rs| && x == ls[1..][i] + rs[j];
          assert x == ls[i + 1] + rs[j];
        }
      }
    }
  }

  /**
   * `get_possible_true_combos`: `[{}]` for the empty requirement, `[{code}]` for a course,
   * the left list followed by the right list (duplicates kept) for an or-node, and the
   * de-duplicated pairwise unions for an and-node.
   */
  function Combos(n: Node): seq<Combo>
  {
    match n
    case Leaf(t) => if t == "" then [{}] else [{t}]
    case Branch(_, sep, l, r) =>
      if sep == '^' then AndCombos(Combos(l), Combos(r)) else Combos(l) + Combos(r)
  }

  /** Adding courses never makes a requirement false. */
  lemma {:induction false} TruthMonotone(n: Node, u: set<string>, v: set<string>)
    requires u <= v && TruthValue(n, u)
    ensures TruthValue(n, v)
  {
    match n
    case Leaf(_) =>
    case Branch(_, sep, l, r) =>
      if sep == '^' {
        TruthMonotone(l, u, v);
        TruthMonotone(r, u, v);
      } else if TruthValue(l, u) {
        TruthMonotone(l, u, v);
      } else {
        TruthMonotone(r, u, v);
      }
  }

  /** Soundness: every enumerated combo satisfies the requirement. */
  lemma {:induction false} CombosSound(n: Node)
    ensures forall c <- Combos(n) :: TruthValue(n, c)
  {
    match n
    case Leaf(_) =>
    case Branch(_, sep, l, r) =>
      CombosSound(l);
      CombosSound(r);
      if sep == '^' {
        forall c <- Combos(n)
          ensures TruthValue(n, c)
        {
          var i, j :| 0 <= i < |Combos(l)| && 0 <= j < |Combos(r)| && c == Combos(l)[i] + Combos(r)[j];
          TruthMonotone(l, Combos(l)[i], c);
          TruthMonotone(r, Combos(r)[j], c);
        }
      }
  }

  /** Completeness: whenever a set of courses satisfies the requirement, some combo is inside it. */
  lemma {:induction false} CombosComplete(n: Node, u: set<string>)
    requires TruthValue(n, u)
    ensures exists c <- Combos(n) :: c <= u
  {
    match n
    case Leaf(t) =>
      if t != "" {
        assert {t} in Combos(n);
      } else {
        assert {} in Combos(n);
      }
    case Branch(_, sep, l, r) =>
      if sep == '^' {
        CombosComplete(l, u);
        CombosComplete(r, u);
        var cl :| cl in Combos(l) && cl <= u;
        var cr :| cr in Combos(r) && cr <= u;
        var i :| 0 <= i < |Combos(l)| && Combos(l)[i] == cl;
        var j :| 0 <= j < |Combos(r)| && Combos(r)[j] == cr;
        assert cl + cr in Combos(n);
      } else if TruthValue(l, u) {
        CombosComplete(l, u);
        var c :| c in Combos(l) && c <= u;
        assert c in Combos(n);
      } else {
        CombosComplete(r, u);
        var c :| c in Combos(r) && c <= u;
        assert c in Combos(n);
      }
  }

  /** The enumeration is exact: a set of courses satisfies the requirement iff it contains a combo. */
  lemma {:induction false} TruthIffSomeCombo(n: Node, u: set<string>)
    ensures TruthValue(n, u) <==> exists c <- Combos(n) :: c <= u
  {
    if TruthValue(n, u) {
      CombosComplete(n, u);
    } else if exists c <- Combos(n) :: c <= u {
      var c :| c in Combos(n) && c <= u;
      CombosSound(n);
      TruthMonotone(n, c, u);
    }
  }

  /** Every code in every combo is one of the node's linked leaves. */
  lemma {:induction false} CombosWithinLeaves(n: Node)
    ensures forall c <- Combos(n) :: c <= LeavesLinked(n)
  {
    match n
    case Leaf(_) =>
    case Branch(_, sep, l, r) =>
      CombosWithinLeaves(l);
      CombosWithinLeaves(r);
      if sep == '^' {
        forall c <- Combos(n)
          ensures c <= LeavesLinked(n)
        {
          var i, j :| 0 <= i < |Combos(l)| && 0 <= j < |Combos(r)| && c == Combos(l)[i] + Combos(r)[j];
          assert Combos(l)[i] in Combos(l);
          assert Combos(r)[j] in Combos(r);
        }
      }
  }

  /** Only the linked leaves matter to the truth value. */
  lemma {:induction false} TruthDependsOnLeavesOnly(n: Node, u: set<string>)
    ensures TruthValue(n, u) == TruthValue(n, u * LeavesLinked(n))
  {
    match n
    case Leaf(_) =>
    case Branch(_, _, l, r) =>
      TruthDependsOnLeavesOnly(l, u);
      TruthDependsOnLeavesOnly(r, u);
      TruthDependsOnLeavesOnly(l, u * LeavesLinked(n));
      TruthDependsOnLeavesOnly(r, u * LeavesLinked(n));
      assert u * LeavesLinked(n) * LeavesLinked(l) == u * LeavesLinked(l);
      assert u * LeavesLinked(n) * LeavesLinked(r) == u * LeavesLinked(r);
  }

  /** There is always at least one combo, and an and-node's list holds no duplicates. */
  lemma {:induction false} CombosShape(n: Node)
    ensures |Combos(n)| >= 1
    ensures n.Branch? && n.sep == '^' ==> NoDuplicates(Combos(n))
  {
    match n
    case Leaf(_) =>
    case Branch(_, sep, l, r) =>
      CombosShape(l);
      CombosShape(r);
      if sep == '^' {
        assert Combos(l)[0] + Combos(r)[0] in Combos(n);
      }
  }
}
