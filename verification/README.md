# Host tools of the kernel build, verified in Dafny

The tools that build a kernel configuration and its tables are small compilers and rewriters.
This project models the ones whose correctness is not obvious and proves what they are for.
`dafny verify dfyconfig.toml` checks everything.

How the files belong together:

- **Kconfig expressions** (`Kconfig*.dfy`). Three-valued expressions with the value that
  `expr_calc_value` gives them under a valuation of the symbols. A valuation respects the types:
  `y`, `m` and `n` have their values, booleans are y or n, and the string of a boolean or
  tristate is its letter; `AnyAssignmentRespects` says how many there are. Every rewriting
  (`expr_eliminate_yn`, `expr_eliminate_eq`, `expr_eq`, `expr_join_or`, `expr_join_and`,
  `expr_eliminate_dups`, `expr_transform`, `expr_trans_bool`, `expr_trans_compare`) is a function on
  expressions with its value theorem, its termination measure and its normal form. `KconfigKeys` says
  what the equality test decides and what cancelling leaves, in terms of multisets of operands;
  `KconfigArrange` when the order of operands matters to it; `KconfigTidy` what duplicate elimination
  cannot leave.
  `KconfigDups.Rewriter` runs duplicate elimination on slots of one tree that alias each other,
  `KconfigNodes.ExprNode` runs the rewritings that overwrite nodes. `KconfigMenuDeps` puts them
  together as `menu_finalize` uses them; `KconfigBelongs` says who passes its test.
- **Menu tree** (`MenuForest.dfy`, `MenuTree.dfy`). What re-nesting does to the list of entries,
  and that the rewiring of next, list and parent links does exactly that; the walk that writes a
  configuration. Whether an entry belongs below another one is a parameter here;
  `KconfigNesting.dfy` puts the test of the dependencies in and says what it means for the values.
- **unifdef** (`Unifdef*.dfy`). A reader of conditional sections as the C standard has them, the
  table-driven machine, and the simulation between input and output over its ten states; the
  expression grammar with precedence, the three-valued evaluator and its C meaning; the driver and
  the evaluator as loops over their state. `UnifdefReduces` describes the output on the nested
  sections of the file. `UnifdefIfeval.UnifdefIsSound` and `UnifdefIfeval.UnifdefOnCutNumbers` join
  both halves, `UnifdefIfeval.NothingKnownIsLeft` says that nothing is left to reduce.
- **kallsyms** (`Kallsyms*.dfy`). Token tables, what a compressed symbol expands to, the in-place
  replacement loops, the pair counts kept up to date, and the compression as a whole.
- **Device tree compiler** (`Fdt*.dfy`). The writer and the reader of flat trees as functions on
  byte strings, `FdtBlob.BlobComesBack` for whole blobs of all versions, `FdtFormat` for the bytes
  themselves, the same writer and reader as appending and advancing procedures, the overlay of trees
  as a map override, the overlay on linked nodes, and markers in property values.
- **ASN.1 compiler** (`Asn1*.dfy`). The bytecode of an element with named jump targets, the order
  in which out-of-line bodies are met, the two-pass renderer with the queue that it threads through
  the elements, and the grammars on which it ends. `Asn1Shape` reads the finished table back, one
  instruction after the other, and compares it with the grammar.
- **genksyms** (`Crc*.dfy`, `Genksyms*.dfy`). The expansion of a symbol's definition, what is
  expanded, the words of the text, the marks threaded through the symbols, the checksum with its
  table, and how a version depends on the exports before it.
- **fixdep** (`Fixdep*.dfy`), **sortextable** (`SortExtable.dfy`), **timeline packing**
  (`Timeline.dfy`). `Options.dfy`, `Pigeonhole.dfy` and `AsciiText.dfy` are shared.

A method that changes state is proved against a function of the state before; the theorems are
lemmas about these functions.

Six results say that the code does not do what one might expect, each with the exact condition
under which it does: chains of the same operands that `expr_eq` tells apart
(`KconfigArrange.OrderFreeExactly`, with the operands in `OrderShows`), a negated ordering test of
values that cannot be compared (`KconfigTransform.NegatedComparison`), a negated operand equal to m
(`KconfigMenuDeps.TransCompareNegated`), an entry nested below a string symbol
(`KconfigMenuDeps.ShortcutIsRight`), a number that does not fit an `int` (`UnifdefEval.LoneNumber`,
`UnifdefEval.RightExactlyWhenFitting` for whole conditions, `UnifdefIfeval.WideNumberDropsText` for
what it does to a file), and a node name that begins with `@` in an old blob version
(`FdtRoundTrip.AddedNameReadsBack`, `FdtMisread.BlobComesBackExactly` for whole trees). Three more are limits stated in the same way: an entry of size
zero ends the reserve list (`FdtBlob.AllReserved`), an undefined type that two symbols name
differently makes versions depend on the order of exports (`GenksymsOrder.OrderOfTwo`), and an option
at offset 0 is missed (`FixdepScan.FirstByteMissed`). A table of bytecode could not be read if a
reference had both a tag and an action of its own (`Asn1Shape.CodeReads`, `TaggedActionUnread`); the
compiler's own parser gives no reference a tag, so this does not happen.

The comment above `expr_trans_bool` speaks of booleans while the code tests for tristates; the model
follows the code.

## Model

| member | source | states |
|---|---|---|
| KconfigExpr.LetterCompare | source/scripts/kconfig/expr.c:917-995 | For a boolean or tristate symbol on the left, `=` and `!=` come down to whether the two string values are the same string, whichever way the values are parsed. |
| KconfigExpr.AnyAssignmentRespects | source/scripts/kconfig/expr.c:917-995 | There are such valuations: any values for the declared symbols, a bool not m, and any strings for those that are neither bool nor tristate, extend to a valuation that respects the types. |
| KconfigYn.YnPreservesValue | source/scripts/kconfig/expr.c:246-327 | Dropping `y` and `n` from and/or trees never changes the value, under any valuation that respects the constants and the types. |
| KconfigYn.YnNormalForm | source/scripts/kconfig/expr.c:246-327 | Nothing removable is left; a tree is left alone exactly if it held nothing removable, and otherwise it gets smaller; a second run does nothing. |
| KconfigEq.CancelStep | source/scripts/kconfig/expr.c:141-173 | The mutual recursion with the equality test ends: neither side ever grows, and a chain of the operator stays one. |
| KconfigEq.CancelStepRebuilds | source/scripts/kconfig/expr.c:141-173 | Cancelling is division: there is one value that, combined with each of the two results, gives back each of the two inputs. |
| KconfigEq.CancelStepExhausts | source/scripts/kconfig/expr.c:141-173 | Afterwards the equality test finds no leaf of one chain equal to a leaf of the other (units aside), and no leaf has appeared that was not there; KconfigKeys.ExprEqExactly says what that test finds. |
| KconfigEq.EliminateEqRebuilds | source/scripts/kconfig/expr.c:175-195 | The same for the whole of the elimination, with the operator the trees were taken apart by and the constants removed afterwards. |
| KconfigEq.ExprEqSound | source/scripts/kconfig/expr.c:200-244 | If the equality test answers yes, both expressions have the same value under every valuation, although the test itself works by cancelling copies. |
| KconfigEq.ReducedToYesIsImplied | source/scripts/kconfig/expr.c:175-195 | If the second expression is reduced to `y`, the first is never greater than the second: the implication that nesting of menus relies on. |
| KconfigEq.SelfCancel | source/scripts/kconfig/expr.c:141-173 | Any part of a chain, cancelled against the chain with everything before it blanked, blanks exactly itself in both. |
| KconfigEq.ExprEqReflexive | source/scripts/kconfig/expr.c:200-244 | Every expression equals itself, also where it holds removable constants; KconfigKeys.ExprEqExactly is about different expressions. |
| KconfigKeys.CancelDifference | source/scripts/kconfig/expr.c:141-173 | The walk over two chains is the difference of two multisets: each is left with the parts that the other does not have, each part as often as it has it more, however the chains are grouped or ordered. |
| KconfigKeys.ExprEqExactly | source/scripts/kconfig/expr.c:200-244 | The equality test decides equality up to order and grouping: for expressions in which no `y` or `n` is an operand, it answers yes if and only if their readings as nested multisets of symbols, comparisons and negations are the same. |
| KconfigKeys.ChainsEqual | source/scripts/kconfig/expr.c:218-228 | Two chains of one operator, neutral constants among their operands allowed, are equal exactly if they have the same other parts, each as often. |
| KconfigKeys.SameOperands | source/scripts/kconfig/expr.c:218-228 | Two chains whose operands form the same multiset, by structural equality, are equal however they are grouped or ordered. |
| KconfigKeys.PlainChainsEqual | source/scripts/kconfig/expr.c:200-244 | For chains of symbols and comparisons without the absorbing constant: equal if and only if, neutral constants dropped, the operands form the same multiset. |
| KconfigKeys.EliminateLeavesDifference | source/scripts/kconfig/expr.c:175-195 | After the whole elimination each of two chains of one operator holds just the parts that the other did not have. |
| KconfigKeys.NothingLeft | source/scripts/kconfig/expr.c:175-195 | If one side is a chain of the operator, the second result is the neutral constant if and only if every part of the second side is a part of the first. |
| KconfigKeys.EveryConjunctGiven | source/scripts/kconfig/menu.c:353-361 | So a condition all of whose conjuncts are conjuncts of the other one is reduced to `y`. |
| KconfigArrange.OrderFreeExactly | source/scripts/kconfig/expr.c:218-228 | Where operands hold removable constants, order can matter. Exactly when it does, for any set of operands none of which comes down to `y` or `n`: all chains of the same operands are equal if and only if operands that are equal to a third are equal to each other. |
| KconfigArrange.OrderShows | source/scripts/kconfig/expr.c:218-228 | Three operands for which it does matter: with x and z bools, `(x or n) and (z or n)` and `x and z` are both equal to `(x or n) and z`, and not to each other. |
| KconfigArrange.DeepIsOrderFree | source/scripts/kconfig/expr.c:218-228 | Operands in which no `y` or `n` is an operand are such: their order never matters. |
| KconfigJoin.ConstantTests | source/scripts/kconfig/expr.c:452-497 | `s = b` together with `s != c`, for constants b and c, is n if they are the same constant and `s = b` otherwise. |
| KconfigJoin.JoinSound | source/scripts/kconfig/expr.c:361-517 | Whenever two operands are joined into one, the joined expression has the value of the two under the operator, for every rule of both tables. |
| KconfigJoin.JoinShape | source/scripts/kconfig/expr.c:361-517 | A joined operand is no chain of the operator itself and no larger than the first operand. |
| KconfigTidy.JoinExactly | source/scripts/kconfig/expr.c:361-517 | The two tables of joins, written out as pairs of expressions with the result of each: two operands are joined if and only if they are equal for the equality test or stand in the table in either order, and the result is the one listed. |
| KconfigDups.PassKeepsValue | source/scripts/kconfig/expr.c:519-569 | One pass of duplicate elimination keeps the value of the whole tree although it compares the tree with itself through aliased slots. |
| KconfigDups.JoinKeepsValue | source/scripts/kconfig/expr.c:541-569 | So does joining two different slots of one tree, one of which is overwritten by the unit and the other by the joined operand. |
| KconfigDups.PassProgress | source/scripts/kconfig/expr.c:571-592 | A pass that counts no join has changed nothing; one that counts some leaves a constant behind that makes the tree shrink in the next round, which is why the loop ends. |
| KconfigDups.PassIdle | source/scripts/kconfig/expr.c:519-569 | A pass joins nothing exactly if no pair of different slots can be joined; KconfigTidy says which pairs those are. |
| KconfigDups.DupsKeepValue | source/scripts/kconfig/expr.c:571-592 | Eliminating duplicates until nothing changes returns an expression of the same value under every valuation that respects the types. |
| KconfigDups.DupsSettle | source/scripts/kconfig/expr.c:571-592 | The result is a fixpoint, nothing in it can be joined, it is no larger than the input, and the input is returned unchanged exactly if it was settled already; KconfigTidy.DupsTidy says what it cannot contain. |
| KconfigTidy.DupsTidy | source/scripts/kconfig/expr.c:571-592 | What the result cannot contain, at any nesting: an operand twice on one chain; two operands that are the same up to order and grouping; two operands that the tables join, such as `s = y` beside `s = m`, `s` beside `!s` for a bool, or `s` beside `s != n`. |
| KconfigTidy.TidyIsKept | source/scripts/kconfig/expr.c:571-592 | An expression in which no `y` or `n` is an operand is returned unchanged if and only if it contains none of these. |
| KconfigTidy.RepeatedOnce | source/scripts/kconfig/expr.c:571-592 | An operand that is no chain, joined with itself by either operator, comes out once. |
| KconfigTidy.InheritTidy | source/scripts/kconfig/menu.c:314-318 | What a menu entry inherits contains none of them either. |
| KconfigTidy.InheritedOnce | source/scripts/kconfig/menu.c:314-318 | An entry that repeats the dependency it inherits keeps it once. |
| KconfigDups.Rewriter.EliminateDups1 | source/scripts/kconfig/expr.c:519-569 | The pass in place: the slots below one node of the tree end up as the pass makes them, the rest of the tree is untouched, and the counter advances by the number of joins. |
| KconfigDups.Rewriter.JoinSlots | source/scripts/kconfig/expr.c:541-569 | The same for two leaf slots: both are overwritten, or neither. |
| KconfigDups.Rewriter.EliminateDuplicates | source/scripts/kconfig/expr.c:571-592 | The loop around the passes in place; the global counter is restored afterwards. |
| KconfigTransform.DeMorganWeight | source/scripts/kconfig/expr.c:694-711 | Pushing a negation through an operator yields a larger tree, but a lighter one once a negation weighs as much as all below it; that is why calling the transformation again ends. |
| KconfigTransform.TransformNormalizes | source/scripts/kconfig/expr.c:594-749 | Negations are left only directly above symbols that are no constants, and no boolean is compared with a constant any more. |
| KconfigTransform.TransformIdempotent | source/scripts/kconfig/expr.c:594-749 | Transforming twice is transforming once, and the expressions left alone are exactly the normal ones. |
| KconfigTransform.TransformValue | source/scripts/kconfig/expr.c:594-749 | For every expression, the value of the result is the value with negations pushed down to the comparisons; no condition. |
| KconfigTransform.TransformKeepsValue | source/scripts/kconfig/expr.c:594-749 | The value is kept if every comparison whose relation gets negated is an equality test or compares comparable values. |
| KconfigTransform.NegatedComparison | source/scripts/kconfig/expr.c:670-693 | For a negated comparison that condition is exact: the value is kept if and only if it holds. |
| KconfigTransform.NegatedOrderingOfOthers | source/scripts/kconfig/expr.c:963-973 | An input where the value is not kept: a negated `<` between two symbols of type S_OTHER, which cannot be compared, goes from y to n. |
| KconfigTransform.TransBoolKeepsNo | source/scripts/kconfig/expr.c:332-356 | On expressions whose negations are directly above symbols, replacing `t != n` by `t` keeps whether the value is n, and never raises the value. |
| KconfigTransform.TransBoolUnderNot | source/scripts/kconfig/expr.c:332-356 | Below a negation it does so exactly unless the tristate is m, so the condition is needed. |
| KconfigTransform.TransBoolComplete | source/scripts/kconfig/expr.c:332-356 | No `!= n` test of a tristate is left anywhere, an expression without one is left alone, and where no tristate is m the value is the same. |
| KconfigNodes.ExprNode.EliminateYn | source/scripts/kconfig/expr.c:246-327 | The rewriting in place, overwriting nodes and copying nodes over their parents: the node stands for the reduced expression and only its own nodes are used. |
| KconfigNodes.ExprNode.Become | source/scripts/kconfig/expr.c:262-266 | Copying a node below over this one: this node then stands for the expression of that one. |
| KconfigNodes.ExprNode.Transform | source/scripts/kconfig/expr.c:594-749 | The transformation in place: the returned node stands for the transformed expression and is made of old nodes and freshly allocated ones only. |
| KconfigNodes.ExprNode.TransformCmp | source/scripts/kconfig/expr.c:616-659 | A comparison of a boolean with a constant is overwritten by the symbol, its negation or a constant. |
| KconfigNodes.ExprNode.PushNot | source/scripts/kconfig/expr.c:694-711 | Both De Morgan cases reuse the two nodes at hand and allocate one: afterwards the node stands for the dual operator over the negated sides. |
| KconfigNodes.ExprNode.TransBool | source/scripts/kconfig/expr.c:332-356 | The replacement in place, over the nodes of the expression. |
| KconfigMenuDeps.InheritValue | source/scripts/kconfig/menu.c:314-318 | The dependency a menu entry inherits has the value of parent and own dependency together, the own one with its negations pushed down to the comparisons; that is the own dependency itself unless a negation meets an ordering of values that cannot be compared. |
| KconfigMenuDeps.NotsDups | source/scripts/kconfig/menu.c:326-331 | Duplicate elimination keeps negations directly above symbols, so the boolean replacement is applied where it is right. |
| KconfigMenuDeps.VisibleWhen | source/scripts/kconfig/menu.c:326-332 | A property is invisible exactly if the entry's dependency is n or the property's own condition is n with its negations pushed down, for tristates and for others; that is the own condition itself unless a negation meets an ordering of values that cannot be compared. |
| KconfigMenuDeps.VisibleKeepsNots | source/scripts/kconfig/menu.c:314-332 | What an entry hands down is again of the form this asks of a parent, so it holds at every level of the tree. |
| KconfigMenuDeps.HandedValue | source/scripts/kconfig/menu.c:309-332 | Down a whole chain of entries: what arrives below them is n exactly when the least of all conditions on the way is, is never more than that least, and is the least where every prompt on the way is one of a tristate or of no symbol. Own conditions count with their negations pushed down. |
| KconfigMenuDeps.OneShutsOut | source/scripts/kconfig/menu.c:309-332 | That least is n exactly when one condition on the way is n. |
| KconfigMenuDeps.TransCompareTells | source/scripts/kconfig/expr.c:808-871 | Turning an expression into a comparison with y or n yields y or n, and y exactly if the comparison holds of its value, as long as no negated operand is m. |
| KconfigMenuDeps.TransCompareNegated | source/scripts/kconfig/expr.c:839-841 | For the negation of any operand that holds no negated m itself, that exclusion is exact, for both constants and both relations: the comparison tells the truth if and only if the operand is not m. |
| KconfigMenuDeps.TransCompareMod | source/scripts/kconfig/expr.c:808-871 | The comparison with m tells the truth about symbols and about comparisons; for a chain it is the chain itself or its negation. |
| KconfigMenuDeps.NestingIsSound | source/scripts/kconfig/menu.c:341-361 | The whole test of a later entry against a symbol of any type and the condition of its entry. An entry that passes through the shortcut is n whenever the symbol is n and its string is that letter, which for a bool or tristate is the same; one that passes through the cancelling test is n whenever the condition is, where neither condition has a negated m or a negated ordering of values that cannot be compared. |
| KconfigMenuDeps.DependsMeansNo | source/scripts/kconfig/expr.c:779-806 | An expression that depends on a symbol in the sense of the shortcut is n whenever the symbol is n and its string is that letter. |
| KconfigMenuDeps.ShortcutIsRight | source/scripts/kconfig/expr.c:779-806 | That condition is exact, for symbols of every type: all expressions that depend on the symbol are n if and only if the symbol is n and its string is that letter. |
| KconfigMenuDeps.LettersAreNo | source/scripts/kconfig/menu.c:341-352 | For a bool or tristate symbol it is no condition beyond being n. |
| KconfigMenuDeps.StringMisleadsShortcut | source/scripts/kconfig/expr.c:779-806 | An input where the shortcut is wrong: a string symbol with the text y is n as a tristate, while what depends on it by `= y` is y. |
| KconfigBelongs.DependsOnConjunct | source/scripts/kconfig/expr.c:779-806 | An expression depends on a symbol s in the sense of the shortcut if and only if one of its conjuncts is s, `s = y`, `s = m` or `s != n`. |
| KconfigBelongs.NotContained | source/scripts/kconfig/expr.c:751-777 | An expression that does not contain a symbol has the same value whatever the value and the string of that symbol are. |
| KconfigBelongs.ReducedToUnit | source/scripts/kconfig/expr.c:175-195 | When the second side comes out as the neutral constant, for all expressions in which no `y` or `n` is an operand: exactly if it was that, or one of the two is a chain and every part of the second is a part of the first. |
| KconfigBelongs.PassesExactly | source/scripts/kconfig/menu.c:347-361 | Who passes the test: an entry is taken in if and only if its condition names the symbol and either a conjunct demands it, or the comparison of the condition with n has all the parts of that of the condition above; for comparisons in which no `y` or `n` is an operand. |
| KconfigBelongs.DemandIsEnough | source/scripts/kconfig/menu.c:348-351 | An entry with a conjunct that demands the symbol is taken in, whatever else its condition is. |
| KconfigNesting.AbsorbedIsHidden | source/scripts/kconfig/menu.c:341-366 | Test and re-nesting together: every entry that an entry takes in is hidden by it in the sense of `NestingIsSound`. |
| KconfigNesting.NestedIsHidden | source/scripts/kconfig/menu.c:282-425 | Every entry of the list that is finally below an entry, whether taken in or handed up by entries without a title, is there by way of such entries, and at each step it was in the list from the start or is hidden by the entry above; the first step from an entry that had no list is always of the second kind. |
| MenuForest.Finalize | source/scripts/kconfig/menu.c:282-425 | Re-nesting changes no entry and no order: the entries from the first one on are met in the same order before and after, whatever the dependencies decide. |
| MenuForest.Absorb | source/scripts/kconfig/menu.c:346-371 | The entries taken in and the entries left, one after the other, are the entries there were. |
| MenuForest.Lift | source/scripts/kconfig/menu.c:415-424 | Handing the lists of untitled entries to the list above keeps the order of all entries. |
| MenuForest.AbsorbTakes | source/scripts/kconfig/menu.c:346-366 | Every entry taken in belongs below the entry, and the first one left does not. |
| MenuForest.FinalizeTakes | source/scripts/kconfig/menu.c:341-371 | An entry with a symbol and without a list takes in all it can: the entry left behind it does not belong below it. |
| MenuForest.FinalizeLeaves | source/scripts/kconfig/menu.c:341-371 | An entry with neither a symbol nor a list takes in nothing. |
| MenuForest.AllApart | source/scripts/kconfig/menu.c:339-341 | The same all along a list whose entries have been finalized: no entry stands behind one that should have taken it in. |
| MenuForest.AbsorbApart | source/scripts/kconfig/menu.c:346-366 | The same along the entries that one entry takes in, up to the first one it leaves. |
| MenuForest.FinalizeGrounded | source/scripts/kconfig/menu.c:282-425 | For every list at every level below the entry afterwards: each entry in it was in the list of the entry above it or belongs below it, directly or by way of entries that show no title. |
| MenuForest.FinalizeTitles | source/scripts/kconfig/menu.c:415-424 | Afterwards every list below an entry is below one that shows a title for it. |
| MenuTree.Tree.MenuFinalize | source/scripts/kconfig/menu.c:282-425 | On the links themselves: the next, list and parent links of the list from this entry on make up the re-nested list, each parent link agrees with the list that holds the entry, no other entry's links change, and each entry concerned is finalised exactly once, in order. |
| MenuTree.Tree.FinalizeList | source/scripts/kconfig/menu.c:339-340 | Finalising the entries of a list while each of them may take in the ones after it: the list ends up as re-nested, each entry finalised once. |
| MenuTree.Tree.TakeIn | source/scripts/kconfig/menu.c:346-371 | The loop that takes entries in and the cut afterwards leave two well-linked lists, the one below and the rest. |
| MenuTree.Tree.Promote | source/scripts/kconfig/menu.c:416-424 | Splicing the list below an entry behind that entry, with all parent links set. |
| MenuTree.Tree.LiftUntitled | source/scripts/kconfig/menu.c:375-424 | The loop over the list below an entry, which also meets the entries it has just spliced in. |
| MenuTree.Tree.ConfWrite | source/scripts/kconfig/confdata.c:787-820 | The walk by links ends and visits every entry below the root exactly once, in the order of the tree. |
| UnifdefMachine.TableFits | source/scripts/unifdef.c:458-502 | Whatever the state and the line, the table never runs an action that closes or leaves a level outside of one, and edits a keyword only on an #elif. |
| UnifdefSound.SimSelects | source/scripts/unifdef.c:418-502 | States related to two stacks of sections: when the state prints, both select alike, and when it drops, the input selects nothing. |
| UnifdefSound.IfEffect | source/scripts/unifdef.c:460-494 | What every kind of #if line does in every state: one level more; in a printing group it is passed through exactly if its verdict is unknown or the line is dodgy, and otherwise opens a group known to be true or false; it fails exactly at the depth limit or on a known dodgy line where these are not allowed. |
| UnifdefSound.ElifEffect | source/scripts/unifdef.c:427-494 | What every kind of #elif line does in every state it is legal in, with the keyword edits to if, else and endif; where no group of the section has been settled it is passed through exactly if its verdict is unknown or the line is dodgy. |
| UnifdefSound.ElseEffect | source/scripts/unifdef.c:429-456 | The same for #else, with the edit to endif. |
| UnifdefSound.EndifEffect | source/scripts/unifdef.c:433-438 | #endif closes the level and is printed exactly if the level was kept. |
| UnifdefSound.StepKeepsInStep | source/scripts/unifdef.c:584-596 | Every line the machine accepts keeps the input read so far and the output written so far in step, for every truth of the unknown conditions. |
| UnifdefSound.ReducedFileSelectsTheSame | source/scripts/unifdef.c:584-596 | Main theorem: whenever the run ends without error, preprocessing the output selects the same plain lines in the same order as preprocessing the input, and the output is itself well nested, for every truth assignment that agrees with the verdicts (conditional inclusion, section 6.10.1 of ISO/IEC 9899:1999). |
| UnifdefSound.AcceptedIffNested | source/scripts/unifdef.c:458-502 | Without dodgy lines, the run ends without error if and only if the input is well nested within the depth limit. |
| UnifdefSound.DodgyRuns | source/scripts/unifdef.c:460-494 | Inside a section a dodgy directive is accepted exactly where nothing turns from printed to dropped or back, with the two exceptions the table makes for #elif. |
| UnifdefReduces.OutputIsReduced | source/scripts/unifdef.c:460-494 | What is written, said on the nested sections of a file instead of the states: groups known to be skipped go, a section whose first other group is known to be selected becomes that group, an unknown #elif behind skipped groups becomes #if, and a known one behind an unknown becomes #else and ends the section. |
| UnifdefReduces.ReducesEveryFile | source/scripts/unifdef.c:583-596 | Every file without dodgy lines that the machine gets through is made of such sections, and the output is exactly their reduction. |
| UnifdefReduces.LeftOver | source/scripts/unifdef.c:375-400 | The plain lines of the output are exactly those in no group known to be skipped, and its conditions exactly those met whose verdict is unknown, each once and in order. |
| UnifdefReduces.OutputIsUnknown | source/scripts/unifdef.c:460-494 | So every condition in the output is that of an input line whose verdict is unknown. |
| UnifdefProcess.Unifdef.Execute | source/scripts/unifdef.c:418-456 | Each action on the state array, the depth and the output does what the model of the action says, with the same errors. |
| UnifdefProcess.Unifdef.Nest | source/scripts/unifdef.c:526-535 | A new level, or the error when the array of levels is full. |
| UnifdefProcess.Unifdef.Process | source/scripts/unifdef.c:583-596 | The driver loop: from any valid state it leaves the state and output that the modelled run does; for whole files UnifdefReduces.ReducesEveryFile says what that output is. |
| UnifdefEval.ParsedLevel | source/scripts/unifdef.c:912-944 | What the evaluator reads at a level of precedence is exactly the spelling of a tree that fits this level, and it stops only where no operator of that level or a tighter one follows. |
| UnifdefEval.ReadBackDone | source/scripts/unifdef.c:912-944 | Every tree that fits a level is read back from its spelling, so the readings cover the grammar. |
| UnifdefEval.Unambiguous | source/scripts/unifdef.c:912-962 | A token sequence is read as a tree if and only if the tree fits C precedence and left associativity and is spelled that way; so there is at most one. |
| UnifdefEval.KnownIsRight | source/scripts/unifdef.c:824-962 | Where every number in the condition fits an int, a value the evaluator arrives at is the C value for every value of the symbols that are not in its table, also when one side of a logical and or a logical or is unknown. |
| UnifdefEval.KnownOfCut | source/scripts/unifdef.c:824-962 | With no condition on the numbers: the value is that of the expression with every number cut to an int, for every value of the unknown symbols. |
| UnifdefEval.RightExactlyWhenFitting | source/scripts/unifdef.c:853-860 | The bound on numbers is exact: all conditions over names and a set of numbers get their C values if and only if each of these numbers, and each number given for a name on the command line, fits an int. |
| UnifdefEval.Told | source/scripts/unifdef.c:824-962 | For every symbol table there is an environment that agrees with it, so the theorems about agreeing environments have instances. |
| UnifdefEval.KnownWhen | source/scripts/unifdef.c:746-777 | In strict mode there is a value exactly if every operand has one, and the lax value is then the same. |
| UnifdefEval.KnownBinExactly | source/scripts/unifdef.c:742-777 | Outside strict mode an operation is worked out if and only if its value is the same for all values of what is unknown: 0 and anything is 0. |
| UnifdefEval.PrecedenceIsC | source/scripts/unifdef.c:798-817 | The levels of the operators are in the order of C. |
| UnifdefEval.LoneNumber | source/scripts/unifdef.c:853-860 | For a lone number the truth of the value is right if and only if the number is zero or not a multiple of 2 to the 32, because it is cut to an int. |
| UnifdefEval.WideNumberMisjudged | source/scripts/unifdef.c:853-860 | An input where it is wrong: 4294967296 is taken for zero. |
| UnifdefIfeval.Evaluator.EvalUnary | source/scripts/unifdef.c:824-907 | Reads what the grammar of unary operands reads, with its verdict, value and cursor, and fails where that fails. |
| UnifdefIfeval.Evaluator.EvalTable | source/scripts/unifdef.c:912-944 | The loop over one level of operators computes the verdict and value of the tree read at that level. |
| UnifdefIfeval.Evaluator.IfEval | source/scripts/unifdef.c:951-962 | The verdict on a condition is the one given by what can be known of its tree. |
| UnifdefIfeval.OpStands | source/scripts/unifdef.c:746-777 | Each binary operation, given two operands known or not, gives a result that is known only when it may be and then right. |
| UnifdefIfeval.VerdictIsRight | source/scripts/unifdef.c:951-962 | True means true and false means false for every environment that agrees with the symbol table, for conditions whose numbers fit an int. |
| UnifdefIfeval.VerdictExactly | source/scripts/unifdef.c:951-962 | A line that spells an expression is judged exactly by what is known of it, and left alone if it is constant and -k was not given; a line that spells none is never judged. |
| UnifdefIfeval.NothingKnownIsLeft | source/scripts/unifdef.c:583-596 | Main theorem of the reduction: no condition that the evaluator can judge is left in the output of a file without dodgy lines. |
| UnifdefIfeval.VerdictOfCut | source/scripts/unifdef.c:951-962 | With no condition on the numbers, the same of the condition with its numbers cut. |
| UnifdefIfeval.IfdefVerdict | source/scripts/unifdef.c:680-690 | #ifdef and #ifndef lines get the verdict of the condition that they abbreviate. |
| UnifdefIfeval.UnifdefIsSound | source/scripts/unifdef.c:584-596 | Evaluator and machine together, for files whose conditions hold only numbers that fit an int: lines labelled by the evaluator's verdicts, run to the end, give a file that selects the same text in every environment that agrees with the table. |
| UnifdefIfeval.UnifdefOnCutNumbers | source/scripts/unifdef.c:584-596 | The same for every file, whatever its numbers, where conditions mean what they mean with numbers cut to an int. |
| UnifdefIfeval.WideVerdictIsWrong | source/scripts/unifdef.c:951-962 | An input where the verdict is wrong: with -k, 4294967296 is judged false and the compiler takes it for true. |
| UnifdefIfeval.WideNumberDropsText | source/scripts/unifdef.c:584-596 | A file of three lines for which the output then lacks text that the compiler sees in the input. |
| KallsymsTokens.ReplaceIsLossless | source/scripts/kallsyms.c:473-512 | Replacing a pair by a free token that stands for it does not change what a symbol expands to. |
| KallsymsTokens.ReplaceLeavesNone | source/scripts/kallsyms.c:490-507 | Replacing leftmost occurrences that do not overlap leaves no occurrence of the pair. |
| KallsymsTokens.ExtendedValid | source/scripts/kallsyms.c:553-556 | Giving a free slot a pair of higher slots or real characters keeps the table one on which expansion ends. |
| KallsymsTokens.NeighboursExpandInside | source/scripts/kallsyms.c:553-556 | What two neighbouring tokens expand to is a contiguous part of what the symbol expands to. |
| KallsymsTokens.TotalUpdate | source/scripts/kallsyms.c:473-512 | Changing one symbol changes the total number of a pair's occurrences by exactly the difference in that symbol. |
| KallsymsTokens.CountIsPlaces | source/scripts/kallsyms.c:425-432 | What is counted: the places at which the two bytes stand next to each other, overlapping ones included. |
| KallsymsCompress.FindToken | source/scripts/kallsyms.c:460-469 | Finds the first occurrence of the pair in the window, or that there is none. |
| KallsymsCompress.WindowPairs | source/scripts/kallsyms.c:490-507 | The search window may reach past the end of the shrinking symbol: what lies there is zero, no token contains zero, and so the search finds exactly the first occurrence inside. |
| KallsymsCompress.ReplaceAll | source/scripts/kallsyms.c:490-507 | The loop in the buffer replaces all leftmost occurrences that do not overlap, and shortens the symbol. |
| KallsymsCompress.LearnSymbol | source/scripts/kallsyms.c:426-432 | Adds to every pair's count exactly its occurrences in the symbol. |
| KallsymsCompress.ForgetSymbol | source/scripts/kallsyms.c:435-441 | Takes exactly those away. |
| KallsymsCompress.FindBestToken | source/scripts/kallsyms.c:515-529 | The first of the pairs with the highest count. |
| KallsymsOptimize.Compressor.CompressSymbols | source/scripts/kallsyms.c:473-512 | Over all buffers: each symbol has the pair replaced, and the counts are again the exact numbers of adjacent pairs over all symbols. |
| KallsymsOptimize.Compressor.OptimizeResult | source/scripts/kallsyms.c:532-558 | The table and the symbols end as `Optimized` says: from the highest slot down, each free one takes the most frequent pair of what the symbols have become, until no two characters stand together. Each compressed symbol then expands to its original, each token to a contiguous part of some original, and the counts are exact. |
| KallsymsOptimize.Compressor.TakeSlot | source/scripts/kallsyms.c:545-556 | One free slot: the first of the most frequent pairs is put there and replaced in every symbol, after which the table is lossless, its tokens stand for parts of names and the counts are exact again; if no pair is left, nothing changes. |
| KallsymsOptimize.OptimizedIsSound | source/scripts/kallsyms.c:532-558 | Whatever the slots take, from any sound state on: the result is lossless, its tokens stand for parts of names, and it cannot be compressed further. |
| KallsymsOptimize.Compressor.constructor | source/scripts/kallsyms.c:58-69 | Symbols in buffers of their own make up a valid state with all counts at zero. |
| KallsymsOptimize.Compressor.InsertRealSymbols | source/scripts/kallsyms.c:561-575 | A slot stands for itself exactly if the character occurs. |
| KallsymsOptimize.Compressor.BuildInitialCounts | source/scripts/kallsyms.c:444-458 | The counts start as the exact numbers of adjacent pairs. |
| KallsymsOptimize.Compressor.OptimizeTokenTable | source/scripts/kallsyms.c:577-590 | The whole compression is lossless for symbols without a zero byte. |
| KallsymsOptimize.Compressor.ExpandSymbol | source/scripts/kallsyms.c:301-324 | The recursive expansion into the result buffer ends and writes exactly the expansion, followed by a zero byte. |
| KallsymsOptimize.BestPairFits | source/scripts/kallsyms.c:545-556 | A pair with a positive count consists of slots in use that are above the free slot, and stands for a part of an original symbol. |
| KallsymsOptimize.HeightBelow | source/scripts/kallsyms.c:301-324 | What a slot stands for is expanded in fewer steps than the slot: why the recursion ends. |
| FdtWrite.Insert | source/scripts/dtc/flattree.c:243-256 | The returned offset holds the name, and offsets handed out earlier keep holding theirs although later names may share their tails. |
| FdtRoundTrip.NameFromJoin | source/scripts/dtc/flattree.c:726-741 | The name read back from a full path is the child's name if and only if the parent's path is one that joining and the length test agree on. |
| FdtRoundTrip.PropStands | source/scripts/dtc/flattree.c:678-697 | A property written at an aligned offset is read back with its name, value and the offset after it; writer and reader agree on the gap before long values. |
| FdtRoundTrip.PropsStand | source/scripts/dtc/flattree.c:258-314 | So are all live properties of a node, in order, whatever follows them. |
| FdtRoundTrip.AddedNameReadsBack | source/scripts/dtc/flattree.c:295-306 | The name property added for old versions is read back as the node's name up to the unit address, exactly if the name does not begin with @. |
| FdtRoundTrip.AtNameMisread | source/scripts/dtc/flattree.c:295-306 | A node whose name begins with @ gives a property that is read back with another value. |
| FdtRoundTrip.NodeStands | source/scripts/dtc/flattree.c:743-801 | A node written at an aligned offset is read back as its canonical form: live properties and children only, no labels, with the added name where the version has one. |
| FdtBlob.AllReserved | source/scripts/dtc/flattree.c:699-723 | The reserve list comes back whole if and only if no entry has size zero; otherwise it ends before the first such entry. |
| FdtBlob.ReserveStands | source/scripts/dtc/flattree.c:316-335 | The reserve entries that are written come back up to the first of size zero, wherever the list stands. |
| FdtBlob.HeaderStands | source/scripts/dtc/flattree.c:337-367 | The header fields that a reader uses read back as what was put there; FdtFormat.BlobFormat says which bytes all of them are. |
| FdtBlob.BlocksStand | source/scripts/dtc/flattree.c:369-432 | The regions stand where the header offsets say, and the sizes add up to the size of the blob. |
| FdtBlob.BlobIsConsistent | source/scripts/dtc/flattree.c:369-447 | Header, reserve list, structure block and strings of a written blob fit together for every version, padding and number of extra reserve entries. |
| FdtBlob.BlobComesBack | source/scripts/dtc/flattree.c:804-933 | Main theorem: a blob written for a known version is read back as the canonical tree, the reserve list up to the first empty entry, and the boot CPU where the version stores it; an unknown version writes nothing (Devicetree Specification, sections 5.2 to 5.6). |
| FdtFormat.BytesCompare | source/scripts/dtc/data.c:187-206 | Numbers in a blob have their highest byte first: bytes of one width compare, at the first in which they differ, as the numbers do, and different bytes are different numbers. |
| FdtFormat.NodeLaid | source/scripts/dtc/flattree.c:258-314 | The structure block, token by token and without the functions that read or write it: tags 00 00 00 01 for a node, 00 00 00 03 for a property with its length and the offset at which its name stands among the strings, 00 00 00 02 for the end; zeros up to multiples of 4, and of 8 before long values in old versions (Devicetree Specification, section 5.4). |
| FdtFormat.BlobFormat | source/scripts/dtc/flattree.c:369-447 | Main theorem: the bytes of every written blob. d0 0d fe ed first, then the ten fields with the last compatible version, reserve entries as address and size of eight bytes each with an empty one behind them, the tree token by token, 00 00 00 09, the strings, and as many zeros as -S and -p ask for (Devicetree Specification, sections 5.2 to 5.5). |
| FdtFormat.ReadBlobChecks | source/scripts/dtc/flattree.c:804-900 | A file is accepted only if it begins with these bytes, is as long as its header says and has its blocks inside that length. |
| FdtMisread.BlobComesBackExactly | source/scripts/dtc/flattree.c:804-933 | For every tree whose names are C strings of an int's length: the blob comes back if and only if the names are good, that is, where the version writes paths no live child hangs below a path that ends in a slash (the root's own aside), and where it adds name properties no such name begins with @. |
| FdtMisread.NodeMisread | source/scripts/dtc/flattree.c:743-801 | A node in which some name is not good is not read back, at whatever depth the name is: reading fails or gives another tree. |
| FdtMisread.NewIsGood | source/scripts/dtc/flattree.c:743-801 | In the versions that write neither paths nor added names every name is good. |
| FdtFlatten.Flattener.FlattenTree | source/scripts/dtc/flattree.c:258-314 | The emitter, appending to the two growing buffers, writes exactly the bytes of the modelled node and string table, which FdtFormat.NodeLaid describes one by one. |
| FdtFlatten.Flattener.StringtableInsert | source/scripts/dtc/flattree.c:243-256 | The scan over the string table finds the first offset where the name ends, or appends it. |
| FdtFlatten.Flattener.EmitProperty | source/scripts/dtc/flattree.c:275-295 | One property: tag, length, name offset, gap and padded value. |
| FdtFlatten.Inbuf.UnflattenTree | source/scripts/dtc/flattree.c:743-801 | The reader, advancing its pointer, reads what the modelled reader reads and leaves the pointer where that ends, or fails with it. |
| FdtFlatten.Inbuf.FlatReadString | source/scripts/dtc/flattree.c:621-640 | Reads up to the zero byte and realigns, or fails at the end of the buffer. |
| FdtFlatten.Inbuf.FlatReadProperty | source/scripts/dtc/flattree.c:678-697 | The same for a property, with the realignment for long values of old versions. |
| FdtMerge.AddedLabelsLive | source/scripts/dtc/livetree.c:27-43 | After adding labels, a label is live exactly if it was live or is among the added ones. |
| FdtMerge.MergePropsEntry | source/scripts/dtc/livetree.c:147-186 | For every property name: the new value if the new side gives one, deleted if the new side deletes it, else as before. |
| FdtMerge.MergeChildrenEntry | source/scripts/dtc/livetree.c:190-211 | For every child name: merged, deleted, added or as before, decided by that name's entries alone. |
| FdtMerge.MergeIsOverride | source/scripts/dtc/livetree.c:137-217 | Main theorem: at every path and property, what the merged tree says is what the override of the old tree by the new one says; below a redefined deleted node only the new definition counts. |
| FdtMerge.MergedReads | source/scripts/dtc/livetree.c:363-443 | The same for what the look-ups give that skip deleted entries, where siblings have distinct names on both sides. |
| FdtMerge.ReadIsLookup | source/scripts/dtc/livetree.c:363-443 | Where siblings have distinct names, looking for the first live entry of a name and looking at its first entry come to the same. |
| FdtMerge.TwinComesOut | source/scripts/dtc/livetree.c:363-372 | Why that is asked: if a node has two properties of one name, deleting the name brings out the second. |
| FdtMerge.OverrideBarren | source/scripts/dtc/livetree.c:286-297 | Over a node with nothing live in it, the override is the new tree. |
| FdtMerge.DeletedClean | source/scripts/dtc/livetree.c:286-297 | Deleting a node leaves nothing live below it. |
| FdtMerge.MergeKeepsShape | source/scripts/dtc/livetree.c:137-217 | Names of siblings stay distinct, and deleted nodes stay free of live contents. |
| FdtMergeOrder.PropOrder | source/scripts/dtc/livetree.c:147-181 | Properties keep their places, and the new ones come behind them in the order of the overlay. |
| FdtMergeOrder.ChildOrder | source/scripts/dtc/livetree.c:183-210 | The same for children. |
| FdtMergeOrder.PropLabels | source/scripts/dtc/livetree.c:157-181 | A property that both sides have keeps its live labels and gets all labels of the overlay; a deleted one has no live label; any other is as it was. |
| FdtMergeOrder.NodeLabels | source/scripts/dtc/livetree.c:143-147 | The same for the labels of a node. |
| FdtOverlay.LiveNode.MergeNodes | source/scripts/dtc/livetree.c:137-217 | The merge on node objects, relinking the new nodes into the old tree: the node then is the merged tree, made of nodes of the two trees only. |
| FdtOverlay.LiveNode.TakeChild | source/scripts/dtc/livetree.c:190-211 | One child of the overlay deletes, is laid over, or is appended to the children. |
| FdtOverlay.LiveNode.DeleteNode | source/scripts/dtc/livetree.c:286-297 | The recursive deletion on node objects marks exactly what the model marks. |
| FdtOverlay.MergedProps | source/scripts/dtc/livetree.c:147-186 | The loops over both property lists compute the merged list. |
| FdtMarkers.ValuesAreOrdered | source/scripts/dtc/data.c:120-169 | A byte string and a marker list make up a value exactly if the offsets are in order and within the length. |
| FdtMarkers.MarkersMove | source/scripts/dtc/checks.c:481-502 | Filling in paths moves every marker by exactly the bytes filled in behind earlier markers, and keeps the list. |
| FdtMarkers.FilledLength | source/scripts/dtc/checks.c:481-502 | The value grows by exactly those bytes. |
| FdtMarkers.PathBehindMarker | source/scripts/dtc/checks.c:481-502 | Behind the marker of a reference that can be resolved stands the path with a terminating zero, between what is made of the pieces before and behind. |
| FdtFixup.Property.InsertAtMarker | source/scripts/dtc/data.c:128-141 | Inserting behind the i-th marker puts the bytes at its place among bytes and markers; the value and all offsets agree with that. |
| FdtFixup.Property.AppendData | source/scripts/dtc/data.c:120-126 | Appends the bytes behind all markers. |
| FdtFixup.Property.AddMarker | source/scripts/dtc/data.c:240-251 | Adds the marker at the end. |
| FdtFixup.Property.Merge | source/scripts/dtc/data.c:143-169 | Appends the other value, bytes and markers in their order. |
| FdtFixup.Property.FixupPathReferences | source/scripts/dtc/checks.c:481-502 | Every resolvable path reference, in list order, gets its path and a zero byte right behind its marker; nothing else changes; the unresolvable references are reported in order. |
| FdtFixup.FixedUpStands | source/scripts/dtc/flattree.c:275-295 | A property whose references have been filled in is read back from where it was written with exactly the filled-in bytes, longer by what was put in. |
| Asn1Code.RefsAre | source/scripts/asn1_compiler.c:1536-1552 | The references collected from code are exactly the elements whose bodies it jumps to. |
| Asn1Layout.OrderIsReachable | source/scripts/asn1_compiler.c:1396-1438 | The bodies rendered are all different, include every one that rendered code jumps to, and are in every other set with that property: exactly the reachable ones, each once. |
| Asn1Layout.OrderIs | source/scripts/asn1_compiler.c:1402-1405 | When the queue runs empty, the order of bodies is final. |
| Asn1Layout.JumpsLand | source/scripts/asn1_compiler.c:1536-1552 | In a finished table every jump to an out-of-line body holds the index of that body's first entry, and the body, one that is rendered, stands there in full. |
| Asn1Loops.LoopsLand | source/scripts/asn1_compiler.c:1576-1590 | In a finished table every other jump ends the loop of some SEQUENCE OF or SET OF: it holds the index where the code begins that the loop repeats, and all of that code and the instruction that ends the loop stand between there and the jump. |
| Asn1Loops.ListingLooped | source/scripts/asn1_compiler.c:1417-1432 | Inline or out of line, at any depth: every jump back in the listing closes a loop that stands in full before it. |
| Asn1Shape.CodeReads | source/scripts/asn1_compiler.c:1443-1615 | Reading an element's code instruction by instruction finds what the grammar calls for: matches with the tag of the innermost override if one was written there and the element's own otherwise, constructed if either is, conditional or skippable if either is, the ending of its kind, loops back to the start of what they repeat, and each action behind the instruction that announces it. It can be read if and only if it holds no SET and no reference with a tag and an action of its own. |
| Asn1Shape.BodyReads | source/scripts/asn1_compiler.c:1396-1438 | The same for an out-of-line body, up to its return. |
| Asn1Shape.ListingReads | source/scripts/asn1_compiler.c:1358-1362 | The same for the root element, the end, and the bodies in their order. |
| Asn1Shape.RenderedReads | source/scripts/asn1_compiler.c:1364-1380 | Main theorem: reading a finished table from its first entry to its last finds exactly these instructions, with the address of each body and of each loop filled in. |
| Asn1Shape.TaggedActionUnread | source/scripts/asn1_compiler.c:1491-1535 | Such a reference: its match announces an action, and the next entry is the code of the type. |
| Asn1Render.Renderer.RenderElement | source/scripts/asn1_compiler.c:1443-1615 | In either pass an element advances the entry count by the same number, writes its code with the known addresses when writing, and queues the bodies it is first to refer to; it fails exactly if a SET is reached. Asn1Shape.CodeReads says what that code is. |
| Asn1Render.Renderer.Enqueue | source/scripts/asn1_compiler.c:1544-1548 | Joining the queue keeps the queue one chain, also over links left by the first pass. |
| Asn1Render.Renderer.Dequeue | source/scripts/asn1_compiler.c:1402-1405 | The head leaves; a link left over from the first pass never brings in an element that has not joined in this pass. |
| Asn1Render.Turn | source/scripts/asn1_compiler.c:1402-1405 | When an element's turn comes its link names the element that joined after it, or none. |
| Asn1Render.Renderer.RenderOutOfLineList | source/scripts/asn1_compiler.c:1396-1438 | Renders the bodies in order until the queue is empty and notes where each begins; the writing pass notes the same places again. |
| Asn1Render.Renderer.Pass | source/scripts/asn1_compiler.c:1360-1386 | Both passes count the same number of entries; after the first every body's address is known, after the second the table is the listing with these addresses. |
| Asn1Render.Renderer.Render | source/scripts/asn1_compiler.c:1296-1391 | Two passes: the table reads as main code and bodies with every reference replaced by the body's address; it fails exactly if a SET would be rendered. Asn1Shape.RenderedReads says what instructions those are. |
| Asn1Ends.EndsExactly | source/scripts/asn1_compiler.c:1443-1615 | The depths that the model of a grammar carries are there for exactly the grammars on which rendering nests no deeper than some bound, counting only what is rendered from the root and the tags it is rendered under. |
| Asn1Ends.ListingAlike | source/scripts/asn1_compiler.c:1296-1391 | Which depths they are does not matter: the order of bodies and the listing are those of the elements alone. |
| Asn1Ends.FilterIsRendered | source/scripts/asn1_compiler.c:1449-1455 | A type that contains itself below an alternative of a CHOICE is rendered, used once or more than once: the alternative goes out of line and its body jumps to itself. |
| Asn1Ends.LoopDoesNotEnd | source/scripts/asn1_compiler.c:1600-1602 | A CHOICE that is its own alternative is one on which rendering does not end. |
| Crc32.StepByteIsSerial | source/scripts/genksyms/genksyms.c:132-135 | One table look-up does the work of shifting the eight bits of the byte through the register of RFC 1952, section 8. |
| CrcTable.TableIsRule | source/scripts/genksyms/genksyms.c:77-130 | Each of the 256 constants of the table, as they are written out, is what eight steps of the register make of its index. |
| Crc32.UpdateIsSerial | source/scripts/genksyms/genksyms.c:137-147 | The checksum of a string is the CRC-32 taken bit by bit. |
| Crc32.PartialCrc32 | source/scripts/genksyms/genksyms.c:137-142 | The loop over a string runs all its bytes through the register. |
| GenksymsExpand.ExpandOnce | source/scripts/genksyms/genksyms.c:571-616 | No symbol is marked twice, so none is expanded twice. |
| GenksymsExpand.ExpandCloses | source/scripts/genksyms/genksyms.c:571-616 | Everything that an expanded definition refers to is marked and in the table. |
| GenksymsExpand.ExpandLeast | source/scripts/genksyms/genksyms.c:571-616 | Nothing is marked or added that is not referred to, directly or through others. |
| GenksymsText.ExpandSays | source/scripts/genksyms/genksyms.c:540-642 | The text is a list of words with one blank behind each, read off the table that is left: an ordinary word is itself, a type met before is its name, with struct, union or enum in front of a tagged one, and any other type is its own definition. |
| GenksymsText.UnknownSays | source/scripts/genksyms/genksyms.c:595-608 | The definition of an undefined type: its kind, its name and `{ UNKNOWN }`. |
| Genksyms.ExportReaches | source/scripts/genksyms/genksyms.c:644-662 | An export expands exactly the symbols reachable from the exported one, each once, also when types refer to each other in circles. |
| Genksyms.ExportSettled | source/scripts/genksyms/genksyms.c:580-600 | An export leaves the symbol table as it was if and only if everything reachable is defined. |
| GenksymsText.ExportSays | source/scripts/genksyms/genksyms.c:644-662 | The same for the whole text of an exported symbol. |
| GenksymsOrder.OrderOfTwo | source/scripts/genksyms/genksyms.c:540-696 | The text that gives a symbol its version is the same after another export if and only if the two exports agree on every undefined name that both of them add to the table. |
| GenksymsOrder.OrderOfAll | source/scripts/genksyms/genksyms.c:540-696 | The same after any sequence of exports, known and unknown symbols alike. |
| GenksymsOrder.DefinedHasOneVersion | source/scripts/genksyms/genksyms.c:540-696 | So a symbol that reaches nothing undefined has one text whatever has been exported before. |
| GenksymsOrder.Lockstep | source/scripts/genksyms/genksyms.c:571-616 | Why: an expansion over the table as it was and one over the table as it has grown go in step up to the first name that the two tables define differently, and there the texts part. |
| Genksyms.UndefinedDependsOnOrder | source/scripts/genksyms/genksyms.c:583-600 | Otherwise it may: an undefined name called struct by one symbol and union by another gives the second a different text once the first has been exported. |
| Genksyms.Symbols.ExpandAndCrcSym | source/scripts/genksyms/genksyms.c:540-642 | The recursion over definitions, with marks threaded through the symbols, marks and expands as modelled and runs exactly that text through the checksum. |
| Genksyms.Symbols.ExportSymbol | source/scripts/genksyms/genksyms.c:644-696 | The version is the CRC-32 of the expanded text; all marks are clear again; undefined names are counted if warnings are asked for; an unknown symbol changes nothing but that count. |
| Genksyms.Symbols.ClearMarks | source/scripts/genksyms/genksyms.c:662-686 | Following the trail back clears every mark there is. |
| FixdepScan.WordDecides | source/scripts/basic/fixdep.c:227-231 | If the prefix begins at one of the four places that reach into an aligned word, the word names that place. |
| FixdepScan.WordIsFour | source/scripts/basic/fixdep.c:226-249 | One aligned word contributes what the four places contribute together. |
| FixdepScan.ScanIsSearch | source/scripts/basic/fixdep.c:219-250 | The scan of aligned words finds the same options in the same order, each use once, as a search at every byte from offset 1 on. |
| FixdepScan.FirstByteMissed | source/scripts/basic/fixdep.c:222-223 | A prefix at offset 0 is all that the scan misses. |
| FixdepText.OptionIsMentioned | source/scripts/basic/fixdep.c:233-248 | The option found at a place is the one written there: CONFIG_ and the longest run of letters, digits and underscores behind it, without a _MODULE at its end, and only if the file goes on behind the run. |
| FixdepText.OptionsAreMentioned | source/scripts/basic/fixdep.c:219-250 | A search of every byte finds exactly the options written somewhere. |
| FixdepText.PathIs | source/scripts/basic/fixdep.c:207-216 | The file for an option: a slash for each underscore, small letters for capitals, all else unchanged. |
| Fixdep.ConfigSet.IsDefinedConfig | source/scripts/basic/fixdep.c:164-174 | The look-up in the chain answers whether the name has been used before. |
| Fixdep.ConfigSet.UseConfig | source/scripts/basic/fixdep.c:197-217 | A name used for the first time is stored and its file listed; any other use changes nothing. |
| Fixdep.ConfigSet.ParseConfigFile | source/scripts/basic/fixdep.c:219-250 | A file adds its options to those used before in the order of first use, and the list of files follows. |
| Fixdep.FirstUsesAre | source/scripts/basic/fixdep.c:197-204 | The names used are all different and are exactly those met. |
| SortExtable.SortRelativeTable | source/scripts/sortextable.c:212-236 | The entries, read as the places they refer to, are the same multiset as before modulo 2 to the 32 and in signed ascending order of the instructions, although every word is relative to its own place. |
| SortExtable.SignedIs | source/scripts/sortextable.c:200-205 | The order is that of the words as signed 32-bit numbers. |
| SortExtable.Restored | source/scripts/sortextable.c:212-236 | Making relative to the start, permuting and making relative to the new places again keeps what every entry refers to. |
| SortExtable.SameEntries | source/scripts/sortextable.c:225-225 | Any permutation the library's sort may choose keeps the multiset of entries. |
| SortExtable.CanBeSorted | source/scripts/sortextable.c:225-225 | Every table has a permutation that sorts it, so the sort has something to choose. |
| Timeline.Timeline.SetTimelineRows | source/scripts/analyze_suspend.py:1941-1971 | It ends; every item gets one row, no two items of a row overlap, no row is empty, and an item is kept out of each lower row by an earlier item it overlaps there. |
| Timeline.Timeline.FillRow | source/scripts/analyze_suspend.py:1954-1970 | One pass places at least one item and keeps all that for one row more. |
| Timeline.Timeline.FitsRow | source/scripts/analyze_suspend.py:1959-1965 | The inner loop tells whether the item overlaps nothing in the row. |
| Timeline.Blockers | source/scripts/analyze_suspend.py:1951-1971 | For keys in chronological order, an item in row r has r items before it that overlap it and each other at its start. |
| Timeline.RowsAreNeeded | source/scripts/analyze_suspend.py:1951-1971 | As many items as there are rows overlap pairwise. |
| Timeline.FewestRows | source/scripts/analyze_suspend.py:1951-1971 | No other assignment without overlaps has fewer rows. |
| Timeline.OverlapIsShared | source/scripts/analyze_suspend.py:1961-1964 | Of entries that take time the overlap test holds exactly if there is a time inside both. |

## Left out

General:

- Files, processes, options, messages and memory exhaustion; an exit with an error message is a
  failure result.
- Parsers and lexers: expressions, trees, elements, definitions and token lists are given.
- Buffer sizes chosen by the C code and the width of its counters, except where they decide a
  result: cell values, header fields, lengths of values and the `int` of a number in a condition
  are modelled, sizes of 2 to the 31 and more are excluded.

Kconfig:

- KconfigTransform.TransformKeepsValue: under the condition that no relation below an odd number of
  negations orders two values that cannot be compared, because the code does not keep the value
  otherwise; `TransformValue` says what it is without the condition, `NegatedComparison` that the
  condition is exact for one comparison.
- KconfigMenuDeps.TransCompareTells: for operands that are tristate or boolean and not m below a
  negation, because the code is wrong there; `TransCompareNegated` shows that the condition is exact.
- KconfigMenuDeps.NestingIsSound: under both of these conditions where the cancelling test answers,
  since it rests on them. Where the shortcut answers, for symbols whose string is n when they are n,
  because the code is wrong about others; `ShortcutIsRight` shows that this is exact.
  `KconfigNesting.AbsorbedIsHidden` and `NestedIsHidden` likewise.
- KconfigMenuDeps.InheritValue: the own dependency counts with its negations pushed down, because that
  is what the code makes of it; `VisibleWhen` likewise.
- KconfigKeys.SameOperands: for operands in which no `y` or `n` is an operand in turn, because the code
  may tell other chains of the same operands apart; `KconfigArrange.OrderShows` is an example.
  `EveryConjunctGiven`, `NothingLeft` and `ExprEqExactly` likewise.
- KconfigArrange.OrderFreeExactly: for operands none of which comes down to `y` or `n`. If one does,
  what is left of both sides may be equal all the same.
- KconfigTidy.TidyIsKept: for expressions in which no `y` or `n` is an operand, for the same reason;
  `DupsTidy` is without this, except that two operands that are the same up to order are spoken of
  only where neither holds such a constant. `KconfigBelongs.PassesExactly` likewise.
- KconfigEq.CancelStep: the two trees never share a node, so the model returns the two new trees and
  does not show the pointers being overwritten.
- KconfigJoin.JoinSound: joining returns a new expression, as the code allocates one.
- `E_LIST` and `E_RANGE` nodes, `expr_simplify_unmet_dep`, printing, and how symbols get their values.
- MenuTree.Tree.MenuFinalize: the type and choice bookkeeping, reverse and direct dependencies and
  the warnings that the same function deals with; the entries' links do not depend on them.
- MenuTree.Tree.ConfWrite: what is written for an entry, and that a symbol with several entries is
  written once.

unifdef:

- Characters: a condition is a list of tokens, a line has a kind. Comments, continued lines and the
  cases of dodgy lines are columns of the table only.
- The options for complementing, symbol lists, blank lines and line numbers, `ignoring[]`, and the
  output of lines in place.
- UnifdefSound.AcceptedIffNested: without dodgy lines, which the code may refuse in any state
  unless told otherwise.
- UnifdefReduces.ReducesEveryFile: for files without dodgy lines; what becomes of a dodgy line is in
  `UnifdefSound.IfEffect`, `ElifEffect` and `DodgyRuns`. `NothingKnownIsLeft` likewise.
- UnifdefIfeval.VerdictIsRight: for numbers that fit an int, because the code cuts others;
  `VerdictOfCut` is the same without the bound, for the cut numbers, and
  `UnifdefEval.RightExactlyWhenFitting` shows that the bound is exact.
- UnifdefIfeval.UnifdefIsSound: for numbers that fit an int, for the same reason;
  `UnifdefOnCutNumbers` is without the bound.

kallsyms:

- Reading, filtering, sorting and writing symbols.
- KallsymsOptimize.Compressor.OptimizeTokenTable: for symbols without a zero byte, which is what
  reading them guarantees.

Device tree compiler:

- The assembler emitter, labels in the output, sorting, and the other checks; phandle references.
- FdtBlob.BlobComesBack: for trees whose names are C strings, whose paths can be taken apart where
  full paths are written, and whose added names can be read back;
  `FdtMisread.BlobComesBackExactly` shows that of trees whose names are C strings no others come back.
- FdtFormat.BlobFormat: for blobs of less than 4 GB, whose sizes and offsets fit their fields. In which
  order names enter the strings block is not part of it, only that each is where its property says.
- FdtMerge.MergeIsOverride: for overlays whose siblings have different names and old trees whose
  deleted nodes hold nothing live, which `MergeKeepsShape` says is kept. It looks at the first entry of
  a name; `MergedReads` is about the first live one and asks for different names on both sides, which
  `TwinComesOut` shows to be needed. Parent pointers are not part of the model.
- `get_node_by_path`; the paths that references stand for are a map.

ASN.1 compiler:

- Asn1Render.Renderer.Render: for grammars on which rendering nests no deeper than some bound, which
  `Asn1Ends.EndsExactly` says are exactly those that carry depths; on others the code ends only if it
  meets a SET first.
- Asn1Shape.CodeReads: the reader of the table is a model of the format only; the decoder that runs
  it is not part of this model.
- The text of the generated files around the table, and action names.

genksyms:

- Genksyms.Symbols.ExportSymbol: references to typedefs and enum constants are to declared ones; the
  code crashes on others, as its own comment says. Hash chains, reference files and the reports
  about changed symbols.
- The list of visited symbols that is kept for dumping types.

fixdep, sortextable, timeline:

- Dependency files and command lines; a file is mapped from a page boundary, so the bytes of its
  last word that are past its end are zero.
- Bytes of 128 and more in names cannot occur, so the sign of `char` does not matter to the hash.
- SortExtable.SortRelativeTable: the outcome of the library's sort is a parameter, any permutation
  that sorts.
- Finding the table in an ELF file and both byte orders.
- Timeline.FewestRows: for keys in chronological order; without it the rows need not be the
  fewest. Times are real numbers.
