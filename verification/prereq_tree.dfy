/**
 * The `RequirementTree` wrapper of `helper.py`: a root node and the two queries it forwards.
 */
module PrereqTree {
  import opened Requirements

  datatype RequirementTree = RequirementTree(root: Node)

  /** `check_prereqs`: the courses meet the requirement exactly when they contain one of its combos. */
  function CheckPrereqs(tree: RequirementTree, courses: set<string>): (b: bool)
    ensures b <==> exists c <- Combos(tree.root) :: c <= courses
  {
    TruthIffSomeCombo(tree.root, courses);
    TruthValue(tree.root, courses)
  }

  /** `get_all_possible_prereqs`: a non-empty list of sets, each of which meets the requirement. */
  function AllPossiblePrereqs(tree: RequirementTree): (cs: seq<Combo>)
    ensures |cs| >= 1
    ensures forall c <- cs :: CheckPrereqs(tree, c)
    ensures forall c <- cs :: c <= LeavesLinked(tree.root)
  {
    CombosShape(tree.root);
    CombosSound(tree.root);
    CombosWithinLeaves(tree.root);
    Combos(tree.root)
  }
}
