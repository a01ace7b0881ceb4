# Course prerequisite planner — a Dafny model of its core

The program reads University of Toronto course data and answers three questions:

- Does a set of taken courses meet a course's prerequisites?
- Which sets of courses would meet them?
- What prerequisite plans lead to a course, and how long does each take?

This project models the pure core of that program as immutable Dafny values and proves properties of it:

- the **requirement engine**: the `^` (and) / `|` (or) / bracket language, in three copies;
- the **course registry and plan builders**: the exhaustive `get_all_prereq_networks` and the older greedy `recur`;
- the **requirement-string cleaner** `clean_course_requirements`;
- the **word wrapper** `split_string`, at widths 100 and 50.

Modules, one per concept:

| module | file | models |
|---|---|---|
| `Outcomes` | outcomes.dfy | `Option`, `Result` and the three Python exceptions the core can raise (`Fault`) |
| `Text` | text.dfy | ASCII `isalpha`, `isnumeric`, white space, `''.join` |
| `CourseFormat` | course_format.dfy | `is_course_format`, `is_enclosed_brackets` (all three copies) |
| `Grouping` | grouping.dfy | `group_courses`, the inlined grouping loop of `modules/requirements.py` and `helper.py`, and the first-separator split |
| `Requirements` | requirements.dfy | the node methods `get_truth_value`, `get_leaves_linked`, `get_possible_true_combos` |
| `Parser` | parser.dfy | `parse_course_requirements` |
| `PrereqTree` | prereq_tree.dfy | the `RequirementTree` wrapper of `helper.py` |
| `Registry` | registry.dfy | `DatabaseCourse`, `DatabaseCourseNetwork`, `add_course`, `get_course` |
| `Plans` | plans.dfy | `PlannerSlot`, `PlannerCourseNetwork`, `merge_networks`, `get_number_of_credits` |
| `PlanBuilder` | builder.dfy | `get_all_prereq_networks` |
| `GreedyPlanner` | greedy.dfy | `recur` of `graph/course_network.py` |
| `Cleaner` | cleaner.dfy | `clean_course_requirements` (both copies) |
| `WordWrap` | wrap.dfy | `split_string` (both copies) |

Modelling choices:

- **Exceptions** become `Err(fault)`.
  - Indexing past the end of the token list or the combo list is `IndexOutOfRange`.
  - `max([])` is `EmptyMaximum`.
  - An unknown duration letter in `add_course` is `UnknownDurationLetter`. This covers both `ValueError` and the bare `Exception` of the older copy.
- **Plans are values.** A plan is `Network(starts, slots, end, length)`. Each `Slot` holds a course and the index of the slot to take next. `Merge` builds a fresh network from its children's slots, so the children are never changed.
- **Credits are integers.** Credit is counted in half-credits: H is 1 and Y is 2.
- **Set iteration order.** The order Python iterates a set of prerequisites is fixed as a sequence (`Combo`).
- **Termination.** The plan builders have no guard against cyclic prerequisites. They take a `rank` map that strictly decreases along prerequisites (`Registry.Ranked`) as a precondition.
- **Characters.** Character classes are ASCII only.

Where the code's behaviour differs from what its comments suggest, the model follows the code:

- `is_course_format` accepts any character at position 3 (`s[3:6].isnumeric() or s[4:6].isnumeric()` only constrains positions 4 and 5).
- `is_enclosed_brackets('(A')` is true.
- A top-level separator met at negative bracket depth is dropped by the grouping loop.
- In `clean_course_requirements`, the `end < 0` test can never fire.

## Model

| member | source | states |
|---|---|---|
| CourseFormat.IsCourseFormat | modules/course_requirements.py:238-250 | true exactly for length 8 with letters at 0-2, digits at 4-5, a letter at 6 and a digit at 7 (position 3 free); the same in `modules/requirements.py:216-228` and `helper.py:209-224` |
| CourseFormat.CourseFormatExamples | modules/course_requirements.py:242-247 | `CSC111H1` accepted, `CSCAA1` and `''` rejected (the doctests) |
| CourseFormat.IsEnclosedBrackets | modules/course_requirements.py:211-235 | true iff the text starts with `(` and the bracket depth stays positive at every later position, so the first bracket closes only at the very end, if at all; the same in the copy at `helper.py:182-206` |
| CourseFormat.EnclosedScanSpec | modules/requirements.py:202-213 | the early-exit loop returns false exactly when the depth reaches zero before the last character |
| CourseFormat.EnclosedBracketsExamples | modules/course_requirements.py:215-222 | the four doctests, `''` false, and `'(A'` true |
| Grouping.GroupCourses | modules/course_requirements.py:175-208 | the bracket-depth scan of `group_courses`; its properties are proved by `Grouping.GroupJoin`, `Grouping.GroupShapes`, `Grouping.SeparatorTokens` and `Grouping.GroupLength` |
| Grouping.GroupJoin | modules/course_requirements.py:175-208 | concatenating the tokens of `group_courses` gives back its input, whenever no separator sits at negative depth |
| Grouping.GroupLength | modules/course_requirements.py:188-207 | the tokens never hold more characters than the input |
| Grouping.GroupShapes | modules/course_requirements.py:195-205 | every token is a lone separator or a text whose separators all lie inside brackets |
| Grouping.SeparatorTokens | modules/course_requirements.py:195-199 | `[c]` is a token iff `c` occurs at bracket depth 0 |
| Grouping.GroupCoursesExample | modules/course_requirements.py:179-180 | the first doctest groups into the code, the or-separator and the bracketed group |
| Grouping.GroupCoursesSecondExample | modules/course_requirements.py:181-182 | the second doctest: the four depth-0 separators become tokens and the bracketed pair with its inner `^` stays one token |
| Grouping.GroupInline | modules/requirements.py:142-160 | the inlined loop computes the same tokens as `group_courses` and keeps nested separators inside text; when no separator sits at negative bracket depth its tokens also reproduce the input; the same in the copy at `helper.py:137-155` |
| Grouping.SplitAt | modules/course_requirements.py:147-164 | the search for the separator token fails with an index error iff the token is absent, and otherwise stops at its first occurrence |
| Grouping.SplitAtJoin | modules/course_requirements.py:152-155 | the left part is the join of the tokens before the first separator, the right part the join of those after it |
| Grouping.SplitAtFirstTopLevel | modules/requirements.py:162-179 | when no separator sits at negative bracket depth, splitting the tokens at the first top-level separator yields the text before and after that character |
| Requirements.TruthValue | modules/course_requirements.py:44-58 | the recursive truth value; proved by `Requirements.TruthIffSomeCombo`, `Requirements.TruthMonotone` and `Requirements.TruthDependsOnLeavesOnly`; the same in `modules/requirements.py:44-55` and `helper.py:22-33` |
| Requirements.LeavesLinked | modules/course_requirements.py:60-70 | the union of the leaf texts; proved by `Requirements.CombosWithinLeaves` and `Requirements.TruthDependsOnLeavesOnly`; the same in `modules/requirements.py:57-67` and `helper.py:35-45` |
| Requirements.Combos | modules/course_requirements.py:72-110 | the combo enumeration; proved by `Requirements.CombosSound`, `Requirements.CombosComplete`, `Requirements.CombosShape` and `Requirements.AndCombos` |
| Requirements.AndCombos | modules/course_requirements.py:96-106 | the `^` case lists every pairwise union of a left and a right combo, each once; the same in `modules/requirements.py:91-101` and `helper.py:69-80` |
| Requirements.AddUniqueSpec | modules/course_requirements.py:104-105 | append-if-absent adds exactly the new combo and keeps the list free of duplicates |
| Requirements.CombosSound | modules/course_requirements.py:76-78 | every enumerated combo makes the tree true (the doctest, for every tree); the same in `modules/requirements.py:73-75` and `helper.py:51-53` |
| Requirements.CombosComplete | modules/course_requirements.py:80-110 | every set of courses that makes the tree true contains one of the enumerated combos |
| Requirements.TruthIffSomeCombo | modules/course_requirements.py:44-58 | the truth value holds iff some combo is a subset of the courses |
| Requirements.TruthMonotone | helper.py:22-33 | taking more courses never falsifies a requirement |
| Requirements.CombosWithinLeaves | modules/requirements.py:57-67 | every code in any combo is one of the leaves linked below the node |
| Requirements.TruthDependsOnLeavesOnly | modules/requirements.py:44-55 | only the courses among the leaves affect the truth value |
| Requirements.CombosShape | helper.py:55-84 | at least one combo is listed, and the `^` case lists no duplicates |
| Parser.StripOuterSpec | modules/course_requirements.py:136-137 | outer brackets are removed until none enclose the text; the result is a slice of the input |
| Parser.Parse | modules/course_requirements.py:121-172 | on success the tree is well formed and its root text is the bracket-stripped input; failure is only the index error; the same in `modules/requirements.py:116-187` and `helper.py:111-180` |
| Parser.ParseEmpty | modules/course_requirements.py:128-132 | `''` parses to a leaf with empty text and no separator; the same in `modules/requirements.py:123-127` and `helper.py:118-122` |
| Parser.ParseCode | modules/course_requirements.py:139-141 | a course code parses to a leaf with that text |
| Parser.ParseSeparatorChoice | modules/course_requirements.py:147-164 | a branch has separator `^` iff some `^` is at bracket depth 0, and the or-separator otherwise |
| Parser.ParseSplitsAtFirst | modules/course_requirements.py:147-171 | when no separator sits at negative bracket depth, the children are the parses of the text before and after the first top-level separator chosen, and parsing succeeds iff both sides parse |
| Parser.ParseFailsWithoutSeparator | modules/course_requirements.py:156-163 | a non-leaf text without a top-level separator fails with the index error; the same in `modules/requirements.py:171-178` and `helper.py:166-173` |
| Parser.ParseFlat | modules/requirements.py:162-186 | on bracket-free text the root splits at the first `^`, or at the first or-separator when there is no `^`, and both halves are parsed |
| Parser.ParsePair | modules/course_requirements.py:167-171 | `x c y` for two codes is a branch with separator `c` and the two leaves |
| Parser.AndSplitsFirst | modules/course_requirements.py:147-155 | with one and-separator and one or-separator between three codes, in either order, the root separator is `^` |
| Parser.AndAfterOr | modules/course_requirements.py:147-155 | `a`, or-separator, `b`, `^`, `c` parses to an and-node whose left child is the or of `a` and `b` |
| Parser.AndBeforeOr | helper.py:157-165 | `a`, `^`, `b`, or-separator, `c` parses to an and-node whose right child is the or of `b` and `c` |
| Parser.ParseSecondExampleRoot | modules/course_requirements.py:181-182 | the second `group_courses` doctest string, parsed, is a tree whose root separator is `^` |
| PrereqTree.CheckPrereqs | helper.py:98-102 | the courses meet the requirement iff they contain one of its combos |
| PrereqTree.AllPossiblePrereqs | helper.py:104-108 | the list is non-empty and every combo meets the requirement and uses only the tree's leaves |
| Registry.EmptyDb | modules/course_network.py:68-70 | a new registry holds no courses and the given taken set |
| Registry.DurationLetter | modules/course_network.py:78 | the second-last character, or the index error for a code shorter than two characters |
| Registry.AddCourse | modules/course_network.py:72-93 | H gives duration 1 and one half-credit, Y gives 2 and two; any other letter fails; the course is stored under its code and everything else is unchanged; the same in the copy at `graph/course_network.py:63-83` |
| Registry.GetCourse | modules/course_network.py:95-104 | the stored course when the code is registered, and none otherwise; the same in the copy at `graph/course_network.py:85-94` |
| Registry.AddThenGet | modules/course_network.py:89-104 | after adding, looking the code up returns the new course and other codes are unaffected |
| Registry.AddKeepsWellKeyed | modules/course_network.py:91 | adding keeps every course stored under its own code |
| Registry.AddPrereqs | modules/course_network.py:48-51 | the prerequisites are attached and nothing else about the course changes |
| Plans.Single | modules/course_network.py:192-201 | one slot that is both start and end; the length is the course's duration; the same in the copy at `graph/course_network.py:177-186` |
| Plans.MaxLength | modules/course_network.py:224 | the maximum child length: no child is longer and some child attains it |
| Plans.Merge | modules/course_network.py:207-224 | an empty child list fails at `max([])`; otherwise the children's slots come first and one new goal slot holds `end`; the same in the copy at `graph/course_network.py:192-210` |
| Plans.MergeValid | modules/course_network.py:211-223 | the merged plan is well formed: starts are the unlinked slots in order, links point forward, the goal comes last |
| Plans.MergeLinksForward | modules/course_network.py:211-221 | in any network laid out as the merge, every slot before the new goal links to a later slot, so every chain ends at the goal |
| Plans.MergedLinkTo | modules/course_network.py:214-215 | a link inside a child is kept, shifted to where the child's slots sit in the merged list |
| Plans.RelinkToGoal | modules/course_network.py:219-220 | a child's slot is pointed at the new goal slot iff it was that child's goal |
| Plans.MergedIncoming | modules/course_network.py:211-221 | a child's slot has an incoming link after the merge iff it had one inside the child |
| Plans.MergeStartsUnlinked | modules/course_network.py:212-213 | no slot of the merged network links into any of its starts, which are the children's starts |
| Plans.MergeUnlinkedStarts | modules/course_network.py:212-213 | conversely, every slot of the merged network that nothing links to is one of its starts |
| Plans.MergedChain | modules/course_network.py:219-224 | the time from a child's slot to the new goal is its time to the child's goal plus the goal course's duration |
| Plans.MergeLongest | modules/course_network.py:224 | the length is the longest chain of course durations in the merged plan; the same in the copy at `graph/course_network.py:210` |
| Plans.MergedGoalPreds | modules/course_network.py:217-221 | the courses leading directly into the new goal are exactly the children's goals |
| Plans.MergeFeasible | modules/course_network.py:150-155 | merging feasible plans for the members of a combo of `end` gives a feasible plan |
| Plans.CreditsFrom | modules/course_network.py:274-284 | the credit walk with its visited set; proved by `Plans.NumberOfCredits`, `Plans.CreditsAppend`, `Plans.CreditsRepeat` and `Plans.CreditsIgnoreOtherVisited` |
| Plans.NumberOfCredits | modules/course_network.py:266-284 | never more than the sum of durations; exactly that sum when codes are distinct and unvisited; zero when all are visited |
| Plans.CreditsAppend | modules/course_network.py:274-283 | counting a plan in two parts: the second part skips the codes counted in the first |
| Plans.CreditsRepeat | modules/course_network.py:281-283 | listing the same slots twice adds nothing: each code counts once |
| Plans.CreditsIgnoreOtherVisited | modules/course_network.py:266 | visited codes that do not occur in the plan make no difference |
| PlanBuilder.Product | modules/course_network.py:149 | `itertools.product` over the sub-plan lists; proved by `PlanBuilder.ProductSpec` |
| PlanBuilder.AllPrereqNetworks | modules/course_network.py:106-158 | the exhaustive builder; proved by `PlanBuilder.AllPrereqNetworksSound` and the per-combo lemmas below, and compared with the greedy planner by `GreedyPlanner.RecurMatches` |
| PlanBuilder.ProductSpec | modules/course_network.py:149 | the Cartesian product has the product of the list sizes as its length and holds exactly the tuples that pick one element of each list |
| PlanBuilder.AllPrereqNetworksSound | modules/course_network.py:106-158 | every plan built is well formed, correctly timed, ends at the start course and is feasible given the taken courses |
| PlanBuilder.NoPrereqsSingle | modules/course_network.py:115-116 | a course with no prerequisites has exactly the single-course plan |
| PlanBuilder.TakenSinglesShape | modules/course_network.py:123-127 | the loop yields only the single-course plan, exactly as many copies as there are fully taken combos, so none iff no combo is taken |
| PlanBuilder.TakenComboNoMerge | modules/course_network.py:149-151 | a combo already taken contributes no merged plan, since its empty product tuple is filtered out |
| PlanBuilder.SubListsSound | modules/course_network.py:132-146 | a combo is skipped iff one of its untaken members is unregistered; otherwise each untaken member has its own list of sound sub-plans |
| PlanBuilder.MissingComboNothing | modules/course_network.py:142-146 | a combo with an unregistered untaken member contributes nothing |
| PlanBuilder.ComboCount | modules/course_network.py:148-155 | otherwise it contributes one merged plan per product tuple |
| PlanBuilder.ProductSizeZero | modules/course_network.py:149 | a member without plans empties the product |
| PlanBuilder.MergeEachMembers | modules/course_network.py:150-155 | the merged plans are exactly the merges of the non-empty tuples |
| PlanBuilder.NoUsableComboNoPlan | modules/course_network.py:128-158 | if every combo has an unregistered untaken member, no plan exists |
| GreedyPlanner.Recur | graph/course_network.py:96-143 | the greedy planner as written; proved by `GreedyPlanner.RecurEarly`, `GreedyPlanner.RecurShape` and `GreedyPlanner.RecurShortest` |
| GreedyPlanner.RecurEarly | graph/course_network.py:101-108 | no prerequisites, or a combo already taken, give the single-course plan; an empty combo list fails at `[0]` |
| GreedyPlanner.RecurShape | graph/course_network.py:96-143 | any plan returned is well formed, correctly timed and ends at the start course |
| GreedyPlanner.BestShortest | graph/course_network.py:122-143 | the result is no longer than the candidate it starts from or the merge of any fully registered combo, and it is that candidate or one of those merges; on ties the earlier one stays (strict `<`): a replacement is strictly shorter than the starting candidate, it comes from some combo, and every earlier combo is invalid or merges to a strictly longer plan; if no combo beats the starting candidate, it is kept |
| GreedyPlanner.RecurShortest | graph/course_network.py:110-143 | the result is no longer than the merge of any combo whose untaken members all resolve, and it is the first candidate or one of those merges; ties keep the earlier plan: a result other than the first candidate is strictly shorter than it, and every combo before the one it comes from is invalid or strictly longer |
| GreedyPlanner.RecurFixed | graph/course_network.py:110-143 | the corrected planner, which skips every combo with an unregistered untaken member; proved by `GreedyPlanner.RecurFixedSound` and `GreedyPlanner.RecurMatches` |
| GreedyPlanner.BestFixed | graph/course_network.py:122-143 | the corrected candidate loop; proved by `GreedyPlanner.RecurMatches` through `GreedyPlanner.RecurFixed` |
| GreedyPlanner.RecurFixedSound | graph/course_network.py:96-143 | the corrected planner returns only sound, feasible plans |
| GreedyPlanner.RecurMatches | graph/course_network.py:122-143 | the corrected planner finds a plan iff the exhaustive builder does, and its plan is one of the builder's plans and no longer than any of them |
| GreedyPlanner.RecurKeepsUnknownCombo | graph/course_network.py:110-120 | an example where the result leaves out an unregistered prerequisite and is infeasible |
| GreedyPlanner.RecurFailsOnUnknownFirst | graph/course_network.py:110-120 | an example where a fully unregistered first combo makes the call fail at `max([])` though a later combo is usable |
| Cleaner.Replace | modules/data_processing.py:58-59 | `str.replace` for a two-character pattern: a replacement of at most two characters never lengthens the text; proved further by `Cleaner.ReplaceShrinks` and `Cleaner.ReplaceKept` |
| Cleaner.ReplaceShrinks | modules/data_processing.py:58-59 | a shrinking `replace` shortens the text iff the pattern occurs, and leaves it unchanged otherwise |
| Cleaner.ReplaceKept | modules/data_processing.py:56-67 | replacing one run of brackets and separators with another keeps every other character in order |
| Cleaner.Repeat | modules/data_processing.py:56-67 | after either loop (doubled separators, separators beside brackets) none of its patterns occurs; the text is no longer and its non-bracket, non-separator characters are kept in order; the same loops in `data-processing/data_processing.py:42-52` |
| Cleaner.ApplyAllShrinks | modules/data_processing.py:57-59 | each pass that finds a pattern strictly shortens the text, so the loops end |
| Cleaner.RepeatIdempotent | modules/data_processing.py:63-67 | running a loop again on its own result changes nothing |
| Cleaner.Loops | modules/data_processing.py:56-67 | the two loops in order keep the course-code characters in order and never lengthen the text; proved further by `Cleaner.Repeat` |
| Cleaner.Trim | modules/data_processing.py:72-89 | a non-empty result starts with no closing bracket or separator and ends with no opening bracket or separator; an empty range gives `''` |
| Cleaner.TrimInfix | data-processing/data_processing.py:57-72 | the result is a slice and everything cut off is a bracket or separator |
| Cleaner.Clean | modules/data_processing.py:41-89 | codes kept in order, no junk at either end, never longer; the same in the copy at `data-processing/data_processing.py:25-74` |
| Cleaner.CleanExampleSeparators | modules/data_processing.py:51-52 | the first doctest: a string of separators only cleans to `''` |
| Cleaner.CleanExampleCode | modules/data_processing.py:53-54 | `'ARH482H1(^)^^'` cleans to `'ARH482H1'`; the same in the copy at `data-processing/data_processing.py:37-38` |
| Cleaner.CleanLeavesDoubleSeparator | modules/data_processing.py:69-70 | the single `replace('()', '')` after the loops can join two separators into `^^` |
| Cleaner.CleanLeavesEmptyBrackets | data-processing/data_processing.py:54-55 | nested empty brackets leave an empty pair behind |
| Cleaner.FixedNoDoubleCaret | modules/data_processing.py:56-70 | the corrected cleaner never leaves a doubled `^` |
| Cleaner.FixedNoEmptyBrackets | data-processing/data_processing.py:42-55 | the corrected cleaner never leaves an empty bracket pair |
| Cleaner.CleanFixed | modules/data_processing.py:56-89 | with empty-bracket removal inside the loops, none of the rule patterns remains, the ends are clean, and codes are kept |
| WordWrap.WordLen | modules/helpers.py:15 | the length of the longest white-space-free prefix |
| WordWrap.Words | modules/helpers.py:15 | `split()` yields only non-empty, white-space-free words |
| WordWrap.Strip | modules/helpers.py:24 | `strip()` removes only white space, only from the ends: the result is a slice of the input with white space alone before and after it, and none at its own ends |
| WordWrap.Layout | modules/helpers.py:16-23 | the accumulation loop: it produces text iff there are words; proved further by `WordWrap.LayoutRenders` |
| WordWrap.Break | modules/helpers.py:18-23 | the line grouping the loop performs: no lines iff no words; proved further by `WordWrap.BreakGreedy` and `WordWrap.GreedyUnique` |
| WordWrap.WordsRender | modules/helpers.py:15-23 | reading the wrapped text back gives the words of all lines in order |
| WordWrap.BreakGreedy | modules/helpers.py:18-23 | the lines the loop forms hold the words in order; every line fits unless it is a single word; a line breaks only where the next word would not fit |
| WordWrap.LayoutRenders | modules/helpers.py:16-24 | the loop's text, stripped, is exactly those lines joined by line breaks |
| WordWrap.GreedyUnique | modules/display.py:165-170 | any two line groupings that meet the greedy conditions are the same |
| WordWrap.SplitString | modules/helpers.py:13-24 | the result is the rendering of the greedy lines, and reading it back gives the input's words; it has no white space at either end, and every line break sits between a space and the start of a word, so no two line breaks are adjacent |
| WordWrap.SplitStringHelpers | modules/helpers.py:13-24 | at width 100: greedy lines, same words, no white space at either end, no two adjacent line breaks |
| WordWrap.SplitStringDisplay | modules/display.py:160-171 | at width 50: greedy lines, same words, no white space at either end, no two adjacent line breaks |
| WordWrap.SplitStringGreedy | modules/display.py:162-171 | the output equals the rendering of any greedy grouping of the input's words |
| WordWrap.SplitStringIdempotent | modules/helpers.py:13-24 | wrapping wrapped text again changes nothing |

## Left out

- The tkinter GUI (`modules/main.py`, most of `modules/display.py`, `display/display.py`): user-interface code, with no logic of the core.
- JSON reading and writing (`clean_data`, `modules/runner.py`, `graph/runner.py`): file I/O.
- The Scrapy spider and its items: HTML extraction through a library that is not part of this model.
- `__str__` and `_str_recur_helper` of both network files: rendering through the external `treelib` library.
- Object identity of `PlannerSlot`s: plans are values. The source's reuse of the same sub-network object across product tuples, and the overwriting of `end.next_course` that comes with it, are not reproduced.
- Python's set iteration order: it is fixed as a sequence. It decides only the order of slots, not lengths or feasibility. A `Registry.Combo` sequence may also repeat a code, which a Python set cannot; the lemmas do not rely on the absence of repeats.
- The `isinstance(course, set)` branches of the network code: dead, since slots never hold sets. The empty `merge_paths_multiple` stub of `helper.py` is also left out.
- `credit_value` floats: never used in arithmetic, so credit is kept as an integer count of half-credits.
- Unicode: `isalpha`, `isnumeric`, `split()` and `strip()` are modelled over ASCII (white space: space, tab, line feed, carriage return, vertical tab, form feed and the four ASCII separator controls).
- PlanBuilder.AllPrereqNetworksSound: requires an acyclic, fully attached registry (`Registry.Ranked`, `Registry.Registered`), because the source has no guard against cycles or missing prerequisite lists. `Registry.Ranked` also asks the rank to drop along edges into taken courses, which the builder never follows; this is stricter than termination needs.
- GreedyPlanner.Recur: requires the same acyclic registry, for the same reason.
- GreedyPlanner.RecurShortest: also requires every combo to rank below the start course. This follows from `Registry.Ranked` (lemma `PlanBuilder.PrereqsBelow`) but is stated so the contract can name the sub-plans.
- Grouping.GroupJoin: the round trip is stated only for text without a separator at negative bracket depth, because the loop drops such separators.
- Grouping.GroupInline: the round trip part holds only for text without a separator at negative bracket depth, for the same reason.
- Grouping.SplitAtFirstTopLevel: stated only for text without a separator at negative bracket depth, because the dropped separator shifts the cut.
- Parser.ParseSplitsAtFirst: stated only for text without a separator at negative bracket depth, for the same reason.
- Parser.ParseSecondExampleRoot: states the root only if parsing succeeds; success is not proved for this string.
- WordWrap.Words: only ASCII white space separates words (see Unicode above).

## Findings

| source | as written | input that shows it | evidently intended | confidence | as-written member | corrected member |
|---|---|---|---|---|---|---|
| graph/course_network.py:110-120 | the first candidate merges the plans of the first combo's registered members and silently drops unregistered ones | target `TTT200H1` with combos `[XXX100H1, AAA100H1]` and `[BBB100H1]`, `XXX100H1` unregistered, nothing taken: the result is the plan through `AAA100H1` alone, which never satisfies `XXX100H1` | skip a combo with an unregistered member, as the main loop does | high, not executed | GreedyPlanner.RecurKeepsUnknownCombo | GreedyPlanner.RecurFixed |
| graph/course_network.py:119-120 | when no member of the first combo is registered, `merge_networks([])` fails at `max([])` | the same target with combos `[XXX100H1]` and `[BBB100H1]` | fall through to the other combos | high, not executed | GreedyPlanner.RecurFailsOnUnknownFirst | GreedyPlanner.RecurFixed |
| modules/data_processing.py:69-70 | empty brackets are removed once, after the loops that remove doubled separators | `'A^()^B'` cleans to `'A^^B'` | no doubled separator in the result | medium, not executed | Cleaner.CleanLeavesDoubleSeparator | Cleaner.CleanFixed |
| data-processing/data_processing.py:54-55 | a single `replace('()', '')` leaves an empty pair when empty brackets are nested | `'(())'` cleans to `'()'` | no empty brackets in the result | medium, not executed | Cleaner.CleanLeavesEmptyBrackets | Cleaner.CleanFixed |

`GreedyPlanner.RecurFixed` is proved sound by `GreedyPlanner.RecurFixedSound`, and proved to agree with the exhaustive builder by `GreedyPlanner.RecurMatches`. `Cleaner.CleanFixed` carries its properties in its own contract.
