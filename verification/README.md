# RosterPilot: verified models

These Dafny modules model the parts of RosterPilot whose correctness cannot be read off one function, and prove what those parts are relied on for. `dafny verify dfyconfig.toml` checks everything.

| part | modules | main results |
|---|---|---|
| Combat bridge compiler | `CombatTypes`, `ActivationEnvelope`, `ActivationWalk`, `ActivationSubsets`, `ActivationEnumeration`, `GroupCapacity`, `BudgetCapacity`, `OuterComposition`, `AttachmentEnvelope`, `CellCompiler`, `CellVariants`, `CellCoverage`, `BridgeTypes`, `BridgeHash`, `BridgeCompiler`, `BridgeV3Hash`, `BridgeV3Compiler` | the activation list is exactly the first feasible subsets; composed activations never charge twice, and when a shared limit survives composition; what each effect's status says of phase, keywords and range; a decision-grade claim means nothing was cut or approximated; the cache changes nothing; every compiled bridge verifies and its digest determines it |
| Publishing files | `PublishState`, `CrashSafePublish`, `MappingRegression` | a publication is all or nothing under crashes anywhere, also inside recoveries of recoveries; when a recovery can complete at all |
| Publishing bundles | `ChannelState`, `ChannelPublication` | the channel pointer always names a complete bundle on a gapless hash chain, also when candidates are promoted late; when a move is the next link, and when publication and promotion complete |
| Effect inventory | `JsonPointer`, `EffectTree`, `EffectPositions`, `SourceInventory`, `InventoryTraversal`, `InventoryValidity`, `InventoryValidator`, `InventoryBuilder`, `InventoryCompleteness`, `CorpusReport`, `CorpusAdmission`, `CorpusCreation`, `CorpusSeals` | the inventory lists exactly what every nested effect calls for, and passes its own validator with the exact exception; strict admission raises exactly the issues there are, every leaf of an admitted report is settled, and a report that was made passes all of it but what depends on its leaves and the caller |
| Hashing and rebasing | `ByteTypes`, `Fips180`, `Sha256Padding`, `Sha256Constants`, `Sha256`, `RosterRebase` | the hand-written loop is SHA-256 of FIPS 180-4; compatible rebasing means the same choices under the same rules |
| Faction text | `EditDistance`, `MentionSelection` | the two-row loop is the least number of edits, a metric; greedy mention selection |
| Bundle manifests | `ShardGraph`, `ShardManifest` | depth-first search accepts exactly the acyclic graphs; one owner answers for a faction |
| Point totals | `ConditionTree`, `ConditionLeaves`, `PointTotals`, `PointOperations`, `ModifierGates` | what each condition and modifier means; a resolved total does not depend on any undecided condition; when group conditions would matter |
| XML | `XmlText`, `XmlMarkup`, `XmlParser`, `XmlCompare`, `RoszSelections`, `RoszUnits`, `RoszProfiles` | parsers accept exactly the markup of a tree and compute what the tree says |
| Frames | `Framing` | any cutting of the byte stream gives the same values |

`Wrappers`, `Sequences` and `Ordering` are shared: option and result types, sequence facts, the string order and the stable sort.

Objects that the program updates in place are classes here (`EnvelopeWalk`, `Disk`, `Root`, `Builder`, `BindingLists`, `Visitor`, `Parser` over `XmlNode` objects, `UnitPass`, `ProfilePass`, `FrameDecoder`), and loops are methods. Each is proved equal to a function, and the theorems are about that function.

## How the model reads the program

- A digest of `canonicalJson` is a function of the hashed value, one constructor per hashed object. Nothing is asked of it in general. Where a theorem needs it, `NoCollision` says that the finitely many objects hashed for the bridges, cells, sources, pointers or rosters at hand do not share a digest. The real SHA-256 is modelled only for `draft.ts`.
- A crash is a scheduled event: every file-system step of `Disk` and `Root` may succeed, fail, or be the last one, and recursive removal is one step per file. A file that is being written may be left torn; rename is one step. Publications into one channel root share one process id, so a leftover temporary file has the name the next run wants.
- Library code that is not in the repository (the rule translator, the modifier resolver, name normalization) enters as functions.
- JavaScript numbers are unbounded integers or reals. Where 32-bit wrap-around matters (`Sha256`) it is written out.
- Strings are compared character by character, which stands for the order of UTF-16 code units.

## Where the program does not do what one might expect

Each of these is a theorem: the input on which the program falls short, and the exact condition under which it does not.

- With a negative CP budget the activation list still starts with the empty set, which is over budget (`ActivationEnumeration.NegativeBudgetEnvelope`); a decision-grade bridge never has such a budget (`BridgeCompiler.DecisionGradeBridge`).
- An inner activation group shared by several optional rules is not enforced across them when the rules bring groups of their own (`OuterComposition.SharedInnerGroupLost`). Without a budget the shared limit holds for every accepted set exactly when the groups of the composed choices together leave no more room than that (`SharedLimitIff`, over `GroupCapacity.Capacity`); under a budget, exactly when one choice more than the limit cannot be paid for, cheapest first (`SharedLimitWithBudgetIff`, over `BudgetCapacity.Reaches`).
- A crash inside the cleanup at the end of a recovery can leave a journal whose backup is gone: the content is all-old, but no later recovery or publication completes (`CrashSafePublish.CleanupStrands`). An undisturbed recovery completes exactly when no needed backup is missing (`CrashSafePublish.Disk.Recover`, `Run`).
- Promotion does not compare the candidate with the pointer in force, so a candidate built earlier takes the channel back (`ChannelPublication.StaleCandidateMovesBack`). In any run a move is the next link exactly when its candidate was built on the pointer in force (`ChannelPublication.Root.Run`, `ChannelState.NextLinkIff`), and an undisturbed promotion completes whatever is in force, exactly when no bundle or history file is there with other content (`ChannelPublication.Root.Promote`).
- A write that was cut off leaves a torn immutable file, which is never repaired: no later publication or promotion of that content completes (`ChannelPublication.Root.Publish` and `Promote` say exactly when one does, `ChannelState.TornStays`).
- The validator of the effect inventory joins source id and pointer with a NUL character, so two distinct sources whose ids contain NUL can be refused (`InventoryValidity.NulCanClash`, `DraftValidIff`, `NoNulNoClash`).
- A migrated roster that is stamped keeps `migratedFrom`, and rebasing it against the very bundle it was stamped with reports an integrity mismatch (`RosterRebase.StampedCurrentIff`).
- A top-level unit without a name or count is dropped from the units but not from the profile counts, which shifts every later unit's profiles (`RoszProfiles.UnnamedUnitShifts`, `AlignedIff`).
- A frame with an oversized length blocks the decoder for good, and a malformed payload loses the frames read before it in the same push (`Framing.TooLargeStays`, `MalformedSkips`); `DrainMeans` says what a push over any bytes reads.
- The queue of point modifiers also runs the modifiers nested in a group whose own conditions fail (`ModifierGates.FailingGroupStillCharges`). Letting groups gate what is in them would change no cost exactly when every points modifier agrees with the groups it stands in (`ModifierGates.GroupsMakeNoDifferenceIff`).

## Model

| member | source | states |
|---|---|---|
| Ordering.StringLessIff | lib/rosterpilot/combat-bridge.ts:519-521 | the order of identifiers: of two strings that part, the one that ends there or has the smaller character comes first |
| Ordering.SortByStable | lib/rosterpilot/combat-bridge.ts:523-525 | sorting is stable: what the comparator does not tell apart keeps its order |
| ActivationEnvelope.ActivationConstraintIssue | lib/rosterpilot/combat-bridge.ts:705-728 | the constraint loop raises no issue exactly when the list, read one activation at a time, stays inside every group limit and the CP budget |
| ActivationEnvelope.AcceptsIffFeasible | lib/rosterpilot/combat-bridge.ts:705-728 | reading the list in order decides feasibility of the set: every group count within its limit and the total cost within the budget |
| ActivationEnvelope.FeasibleDownward | lib/rosterpilot/combat-bridge.ts:705-728 | switching activations off keeps a feasible set feasible |
| ActivationWalk.EnvelopeWalk.AddCombination | lib/rosterpilot/combat-bridge.ts:914-922 | one candidate set is listed if legal, or marks the list truncated when it is legal but the limit is reached |
| ActivationWalk.EnvelopeWalk.Walk | lib/rosterpilot/combat-bridge.ts:923-935 | the recursive walk offers, in order, exactly the sets that extend the current selection to the wanted size, and leaves the selection as it found it |
| ActivationWalk.EnvelopeWalk.WalkAllSizes | lib/rosterpilot/combat-bridge.ts:936-938 | the loop over sizes offers every non-empty set, by size and then position, and stops at the first legal set past the limit |
| ActivationSubsets.AllLegalExact | lib/rosterpilot/combat-bridge.ts:911-938 | the enumeration holds exactly the feasible subsets of the activation ids, strictly ordered by size then position, so each once |
| ActivationSubsets.BeforeIsStrictTotal | lib/rosterpilot/combat-bridge.ts:923-938 | the order in which sets are listed, by size and then position, is a strict total order |
| ActivationSubsets.BaselineFirst | lib/rosterpilot/combat-bridge.ts:911-912 | with a budget that is not negative the empty set is the first feasible set |
| ActivationSubsets.PrefixClosed | lib/rosterpilot/combat-bridge.ts:911-945 | any prefix of the enumeration is closed under taking subsets |
| ActivationSubsets.PrefixIsFirst | lib/rosterpilot/combat-bridge.ts:911-945 | every feasible set the limit cuts off comes after all the listed ones |
| ActivationEnumeration.CollectLevers | lib/rosterpilot/combat-bridge.ts:758-803 | the lever table after the loop: sorted, with invalid and repeated levers rejected |
| ActivationEnumeration.CollectExact | lib/rosterpilot/combat-bridge.ts:758-803 | a diagnostic is raised exactly when some lever is malformed, repeated or disagrees on its group; otherwise the table is the levers by id |
| ActivationEnumeration.ApplyConstraints | lib/rosterpilot/combat-bridge.ts:805-877 | the table after the policy catalogue has been applied as an allowlist |
| ActivationEnumeration.ConstrainExact | lib/rosterpilot/combat-bridge.ts:805-877 | a diagnostic is raised exactly when some policy option is not the lever's own statement; what is kept is unchanged |
| ActivationEnumeration.EnumerateActivationEnvelope | lib/rosterpilot/combat-bridge.ts:745-952 | the whole function equals its specification over levers, policy and limit |
| ActivationEnumeration.EnvelopeMeaning | lib/rosterpilot/combat-bridge.ts:745-952 | valid exactly when the input is sound and, in selected mode, the selected set is feasible; a valid selected mode lists one item, whose ids ascend and are exactly the policy's selected ids, less those its catalogue shuts out; an invalid result is the baseline alone; an envelope mode lists the walk's result; which diagnostics there are |
| ActivationEnumeration.EnvelopeOfPolicy | lib/rosterpilot/combat-bridge.ts:745-952 | from sound levers and policy and a non-negative budget on, the function returns a valid envelope whose sets are the first `limit` open sets over the levers the policy leaves: legal, ordered, starting with the empty set, none skipped, `truncated` exactly when an open set is left out, and every subset of a listed set listed |
| ActivationEnumeration.EnvelopeExact | lib/rosterpilot/combat-bridge.ts:879-952 | in envelope mode with a non-negative budget the list is the first `limit` feasible subsets in order, prices included, starting with the empty set, and `truncated` holds exactly when more exist |
| ActivationEnumeration.EnvelopeClosed | lib/rosterpilot/combat-bridge.ts:910-952 | even a truncated list is closed under switching activations off |
| ActivationEnumeration.NegativeBudgetEnvelope | lib/rosterpilot/combat-bridge.ts:910-952 | with a negative budget the listed baseline is itself over budget: the non-negative budget is needed |
| ActivationEnumeration.VariantFaithful | lib/rosterpilot/combat-bridge.ts:730-743 | a listed variant carries its set unchanged and its total cost |
| ActivationEnumeration.CostConcat | lib/rosterpilot/combat-bridge.ts:730-743 | the price of a set is the sum of what its levers cost |
| Sequences.JoinConcat | lib/rosterpilot/combat-bridge.ts:730-743 | the ids in a variant's name are joined by a separator between any two of them and nowhere else |
| OuterComposition.OuterChargedOnce | lib/rosterpilot/combat-bridge.ts:1399-1521 | for every composition judged safe and every accepted activation set, the outer CP cost is charged at most once and the outer effects are applied at most once |
| OuterComposition.BothLimitsKept | lib/rosterpilot/combat-bridge.ts:1399-1521 | every accepted set respects the outer group limit for the rule and each inner group limit for its choices |
| OuterComposition.SafeSelection | lib/rosterpilot/combat-bridge.ts:1453-1490 | at most as many composed levers are active as the composition computed |
| OuterComposition.AtMostOneActive | lib/rosterpilot/combat-bridge.ts:1399-1521 | a rule with a price or effects of its own has at most one active lever |
| OuterComposition.NothingDropped | lib/rosterpilot/combat-bridge.ts:1430-1521 | every composed lever starts with the outer effects in full and keeps its choice's effects; no choice disappears |
| OuterComposition.KeepsInnerGroup | lib/rosterpilot/combat-bridge.ts:1461-1521 | a lever keeps its choice's group exactly when the rule adds none or that same group |
| OuterComposition.ComposeIff | lib/rosterpilot/combat-bridge.ts:1399-1521 | a rule is refused for exactly the first of four reasons that applies: its own group over choices of different groups, its limit above theirs, or a price or effects of its own while two choices can be active together |
| OuterComposition.LeversRead | lib/rosterpilot/combat-bridge.ts:1430-1521 | the levers of a rule that is not refused, field by field: one per choice in order, or one for the rule itself |
| OuterComposition.SharedInnerGroupLost | lib/rosterpilot/combat-bridge.ts:1461-1521 | an inner group shared by two rules: each composition is safe, yet the checker accepts one choice of each although the shared limit is one |
| OuterComposition.SharedLimitIff | lib/rosterpilot/combat-bridge.ts:705-728 | without a budget an inner limit shared by several safe rules holds for every accepted set exactly when the sum, over the distinct effective groups of the composed choices, of the smaller of the group limit and its number of choices is at most that limit; under any budget no accepted set exceeds that sum |
| OuterComposition.SharedLimitWithBudgetIff | lib/rosterpilot/combat-bridge.ts:705-728 | under any CP budget such a limit holds for every accepted set exactly when one composed choice more than it allows, taken cheapest first while the effective groups have room, is not there or costs more than the budget |
| BudgetCapacity.ReachesIff | lib/rosterpilot/combat-bridge.ts:705-728 | some accepted set holds at least n of a list of grouped activations exactly when the n cheapest that fit their groups are within the budget: taking the cheapest first is optimal |
| GroupCapacity.WithinIff | lib/rosterpilot/combat-bridge.ts:705-728 | the most any accepted set holds of a list of grouped activations is the capacity of their groups: a bound holds for every accepted set exactly when it holds for the capacity |
| GroupCapacity.FillAccepted | lib/rosterpilot/combat-bridge.ts:705-728 | reading the list and keeping each activation while its group has room gives an accepted set of exactly that size |
| AttachmentEnvelope.PlanHasDuplicateMembers | lib/rosterpilot/combat-bridge.ts:578-593 | true exactly when a side uses a selection twice |
| AttachmentEnvelope.FilterCandidates | lib/rosterpilot/combat-bridge.ts:612-638 | the candidate loop equals its fold: plans let through, diagnostics raised |
| AttachmentEnvelope.FilterSound | lib/rosterpilot/combat-bridge.ts:612-638 | no diagnostic exactly when all candidates have distinct ids, distinct normal forms and no repeated member |
| AttachmentEnvelope.SameNormalIff | lib/rosterpilot/combat-bridge.ts:535-576 | two selections have the same normal form exactly when, side by side, they attach the same leaders to the same bodyguards with the same supports, in whatever order |
| AttachmentEnvelope.SoundCandidatesIff | lib/rosterpilot/combat-bridge.ts:599-638 | what the candidate checks ask, in terms of the candidates' ids, attachments and members |
| AttachmentEnvelope.EnumerateAttachmentEnvelope | lib/rosterpilot/combat-bridge.ts:599-703 | the whole function equals its specification |
| AttachmentEnvelope.ValidEnvelopeExact | lib/rosterpilot/combat-bridge.ts:599-703 | a valid, uncut envelope lists exactly the plans the policy allows, each once; a cut always leaves a diagnostic |
| AttachmentEnvelope.PlanAllowedIff | lib/rosterpilot/combat-bridge.ts:640-703 | which candidate a policy allows, by its mode and its own attachments |
| AttachmentEnvelope.NothingSaidIff | lib/rosterpilot/combat-bridge.ts:599-703 | no diagnostic is raised exactly on sound candidates, a selected plan that is among them, and no more candidates than the limit |
| AttachmentEnvelope.EnumerateKeepsFirst | lib/rosterpilot/combat-bridge.ts:672-702 | what a cut list keeps: the empty plan first and then the smallest ids, as many as the limit; nothing dropped comes before anything kept |
| CellCompiler.VariantCompleteIff | lib/rosterpilot/combat-bridge.ts:1881-1925 | a variant is complete exactly when it has no diagnostic and every effect is modelled or does not apply |
| CellCompiler.AggregateCompleteIff | lib/rosterpilot/combat-bridge.ts:1927-1968 | an aggregate is complete exactly when there is no diagnostic and every part is complete |
| CellCompiler.CoverageSays | lib/rosterpilot/combat-bridge.ts:1881-1925 | a variant's coverage counts the effects of each status, and its status and claim follow from them and from the diagnostics |
| CellCompiler.AggregateSays | lib/rosterpilot/combat-bridge.ts:1927-1968 | an aggregate adds up the counts of its parts, and is complete or unusable exactly when they and the diagnostics make it so |
| CellVariants.TranslationRead | lib/rosterpilot/combat-bridge.ts:2207-2240 | the rules of a side are translated for the selection of that side, in that side's context |
| CellVariants.LeversAre | lib/rosterpilot/combat-bridge.ts:2241-2254 | the activations a plan's sets are formed of are those of the attacker's rules and then those of the target's |
| CellVariants.ContextOf | lib/rosterpilot/combat-bridge.ts:1042-1115 | what a rule is read against: phase and distance of the cell, the keywords of its own side and of the other, and whether the scenario, or else the plan, attaches its unit |
| CellVariants.StatusIff | lib/rosterpilot/combat-bridge.ts:1736-1858 | the status of every effect, both ways: not applicable exactly when it is switched off or its phase, roll, keywords or range rule it out; approximated exactly when it applies but its distance is not known or its phase mapping is approximate; modelled otherwise |
| CellVariants.VariantEntriesAre | lib/rosterpilot/combat-bridge.ts:2100-2140 | the effects a variant weighs are the ones each side's rules apply and those of every optional activation, in order, marked active exactly when the variant activates them |
| CellVariants.VariantSays | lib/rosterpilot/combat-bridge.ts:2100-2189 | a compiled variant lists one record for every such effect with its status, in order, and hands to the resolver exactly the effects that are active and apply, side by side, in order |
| CellCompiler.CompilePlans | lib/rosterpilot/combat-bridge.ts:2207-2271 | the loop over plans and activation sets, cut by the joint limit, equals its fold |
| CellCompiler.CompileCell | lib/rosterpilot/combat-bridge.ts:2191-2335 | the compiled cell equals its specification |
| CellCoverage.CompleteCellIsWhole | lib/rosterpilot/combat-bridge.ts:2191-2335 | a complete cell has at least one variant, its variants are the full product of allowed plans and activation sets, each pair once, no effect is approximated or omitted, and every variant answers for its rules: each effect's status is the right one, and no active effect that passes the other tests lacks a known distance or an exact phase mapping |
| CellCoverage.CompleteCellIff | lib/rosterpilot/combat-bridge.ts:2191-2335 | a cell is complete exactly when nothing is said against its plans and activations, no more pairs exist than the joint limit, and no variant has an uncertain effect |
| CellCoverage.CutKeepsFirst | lib/rosterpilot/combat-bridge.ts:2273-2335 | what the joint limit keeps: as many pairs as it allows, and none dropped comes before one kept, by the size of the activation set and then by plan and activation |
| BridgeCompiler.CompileIsAlias | lib/rosterpilot/combat-bridge.ts:2348-2371 | compiling a cell gives the renamed compiled form of any cell with the same mechanics |
| BridgeCompiler.CompileCells | lib/rosterpilot/combat-bridge.ts:2378-2403 | unless the mechanics of two of these very cells share a digest, every cell through the shared cache is what compiling it alone gives, in id order, hashes included; in any case every returned cell is sealed and carries its own id, direction and metric |
| BridgeCompiler.UniqueMechanicsSpeakForAll | lib/rosterpilot/combat-bridge.ts:2553-2562 | counting one cell per mechanics digest loses no coverage, unless two of the mechanics counted share a digest |
| BridgeCompiler.CompileCombatBridgeV2 | lib/rosterpilot/combat-bridge.ts:2547-2649 | the compiled bridge always passes the verifier, whatever its digests; unless two of the cells' own mechanics share a digest it equals its specification |
| BridgeCompiler.InputSays | lib/rosterpilot/combat-bridge.ts:2405-2512 | exactly which diagnostics the input check raises: unsound limits, budgets, ids and what is said of the bundle |
| BridgeCompiler.PolicySays | lib/rosterpilot/combat-bridge.ts:2514-2545 | exactly which diagnostics the policy check raises: catalogue options no cell offers and selected ids the catalogue does not list |
| BridgeCompiler.NothingSaidIff | lib/rosterpilot/combat-bridge.ts:2547-2584 | nothing is said against a bridge exactly when its inputs are sound and the policy is met by what the cells offer |
| BridgeCompiler.BridgeCompleteIff | lib/rosterpilot/combat-bridge.ts:2547-2584 | a bridge is complete exactly when nothing is said against it and every cell is complete, unless two of its mechanics share a digest |
| BridgeCompiler.DecisionGradeBridge | lib/rosterpilot/combat-bridge.ts:2547-2584 | a decision-grade bridge, no two of whose mechanics share a digest, has sound inputs, a policy that is met, and every requested cell, whole and exact, answering for its rules, under a budget that is not negative |
| BridgeCompiler.CompiledBridgeVerifies | lib/rosterpilot/combat-bridge.ts:2547-2649 | every compiled bridge passes `verifyCombatBridgeV2Hash` |
| BridgeHash.VerifyCell | lib/rosterpilot/combat-bridge.ts:2605-2638 | a cell is accepted exactly when all its digests are those of its contents |
| BridgeHash.VerifyCombatBridgeV2Hash | lib/rosterpilot/combat-bridge.ts:2591-2649 | a bridge is accepted exactly when its fixed fields and every digest of the tree are right |
| BridgeHash.MechanicsDetermined | lib/rosterpilot/combat-bridge.ts:2019-2036 | equal mechanics digests of verified cells mean equal cells up to id, direction and metric, unless two objects hashed for these two cells collide |
| BridgeHash.CellDetermined | lib/rosterpilot/combat-bridge.ts:2038-2056 | equal cell digests of verified cells mean equal cells, down to the last effect, unless two objects hashed for these two cells collide |
| BridgeHash.BridgeDetermined | lib/rosterpilot/combat-bridge.ts:2082-2098 | two bridges that verify under one `bridgeSha256` are equal in every field, unless two objects hashed for these two bridges collide |
| BridgeV3Hash.BindingBeforeOrder | lib/rosterpilot/combat-bridge-v3.ts:180-194 | the comparison of rule bindings is a strict total order |
| BridgeV3Hash.BindingBeforeIff | lib/rosterpilot/combat-bridge-v3.ts:180-194 | of two bindings the first field that differs decides, in the order cell, plan, side, ability, source, entity, effect, rule source |
| BridgeV3Hash.IsDigestIff | lib/rosterpilot/combat-bridge-v3.ts:35 | a digest is 64 lower-case hexadecimal digits |
| BridgeV3Hash.CheckBindings | lib/rosterpilot/combat-bridge-v3.ts:907-934 | the checks on rule bindings pass exactly when digests and ids are well formed and the list strictly ascends |
| BridgeV3Hash.CheckLeaves | lib/rosterpilot/combat-bridge-v3.ts:907-934 | the checks on relevant leaves pass exactly when the entries are well formed and strictly ascend by leaf id |
| BridgeV3Hash.VerifyCombatBridgeV3Hash | lib/rosterpilot/combat-bridge-v3.ts:851-976 | an exact bridge is accepted exactly when its fixed fields, bindings, indexes, inner v2 bridge and own digest are right |
| BridgeV3Hash.BridgeV3Determined | lib/rosterpilot/combat-bridge-v3.ts:733-752 | two exact bridges that verify under one digest are equal, policy and cells included, although the digest covers those only through the v2 bridge it names, unless two objects hashed for these bridges collide |
| BridgeV3Compiler.RuleBindingResult | lib/rosterpilot/combat-bridge-v3.ts:441-516 | the nested loops, deduplication and sort equal their specification |
| BridgeV3Compiler.BindingLists.AddCell | lib/rosterpilot/combat-bridge-v3.ts:452-506 | one cell adds exactly its rules' bindings and issues |
| BridgeV3Compiler.NoIssuesIff | lib/rosterpilot/combat-bridge-v3.ts:441-516 | no issue is raised exactly when every rule names a current source with that source's entity and effect |
| BridgeV3Compiler.BindingsAscend | lib/rosterpilot/combat-bridge-v3.ts:509-515 | the returned bindings strictly ascend and are exactly the bindings made |
| BridgeV3Compiler.ExactBridgeLeaves | lib/rosterpilot/combat-bridge-v3.ts:518-591 | the leaves an exact bridge lists are exactly the leaves accounted as calculated or state-required, of a source some rule of a cell was compiled from, whose evidence names that cell's phase; each entry names the leaf's source, its disposition and the digest of its account, and the account settles the leaf as strict admission asks |
| BridgeV3Compiler.EntriesAlways | lib/rosterpilot/combat-bridge-v3.ts:558-591 | every relevant leaf gets its entry; the refusal inside the leaf index never happens |
| BridgeV3Compiler.CompileCombatBridgeV3 | lib/rosterpilot/combat-bridge-v3.ts:754-976 | every exact bridge the compiler returns for cells, plans and rules with non-empty ids verifies; unless two of the cells' own mechanics share a digest, the bridge or refusal equals its specification, in which a report, overlay and expectation pass strict admission and the bundle is the report's own |
| BridgeV3Compiler.CompiledV3Verifies | lib/rosterpilot/combat-bridge-v3.ts:754-976 | every exact bridge compiled from cells, plans and rules with non-empty ids verifies |
| BridgeV3Compiler.CompiledV3BindsRules | lib/rosterpilot/combat-bridge-v3.ts:754-849 | an exact bridge binds every rule that stands on a side of a variant of a cell to a current corpus source, field by field, and lists nothing else |
| BridgeV3Compiler.ExactLeavesNothingOut | lib/rosterpilot/combat-bridge-v3.ts:640-729 | once the v2 coverage is exact, and no two mechanics share a digest, no effect of any cell is approximated or omitted, so the search for inexact leaves finds nothing more |
| PublishState.RemoveKeepsSettled | scripts/prepare-data-update.ts:472-472 | while a transaction is removed file by file, what a reader may rely on never changes |
| PublishState.AllBack | scripts/prepare-data-update.ts:442-471 | when every listed path is back the destination is the restored one |
| PublishState.CoveredIsRestored | scripts/prepare-data-update.ts:522-540 | entering phase `publishing` with every path backed up changes nothing |
| PublishState.AllReplaced | scripts/prepare-data-update.ts:542-547 | when every listed path is replaced and no other changed, the destination is the update of the old one |
| CrashSafePublish.Disk.WriteJournal | scripts/prepare-data-update.ts:296-304 | the journal is the old one or the new one, never in between; a committed journal reaching the disk is the only commit |
| CrashSafePublish.Disk.RemoveTransaction | scripts/prepare-data-update.ts:472-472 | recursive removal, one file at a time and cut anywhere, keeps the content |
| CrashSafePublish.Disk.RestoreAll | scripts/prepare-data-update.ts:442-471 | restoring backups, cut anywhere, keeps the content a recovery is due to produce |
| CrashSafePublish.Disk.Recover | scripts/prepare-data-update.ts:412-474 | cut anywhere, recovery keeps the logical content; completing, it leaves exactly that content and no transaction; undisturbed it completes exactly when no needed backup is missing, and once one is missing no recovery completes or brings it back; with nothing to do it changes nothing |
| CrashSafePublish.Disk.PrepareCopies | scripts/prepare-data-update.ts:522-538 | staging and backing up touch no destination file; when done every replaced file is backed up whole |
| CrashSafePublish.Disk.ReplaceAll | scripts/prepare-data-update.ts:542-547 | replacing files one by one keeps the old content as what recovery yields |
| CrashSafePublish.Disk.PublishBody | scripts/prepare-data-update.ts:521-549 | the body commits exactly when it completes, and otherwise leaves a recoverable disk with the old content |
| CrashSafePublish.Disk.Publish | scripts/prepare-data-update.ts:492-565 | publication is one step: the logical content changes exactly when the committed journal reaches the disk, and then to the old content with every listed path replaced and no other |
| CrashSafePublish.Disk.Run | scripts/prepare-data-update.ts:412-565 | over any run of publications and recoveries, each cut anywhere, the content is the initial one with exactly the landed publications applied in order; a recovery that completes leaves that content on disk; from a disk without a needed backup nothing completes and nothing lands |
| CrashSafePublish.CleanupStrands | scripts/prepare-data-update.ts:442-472 | a publication cut off before its first rename, then a recovery cut off in its own cleanup, lead to a disk whose content is all-old and on which recovery cannot complete |
| MappingRegression.MappingRegressionReasons | scripts/prepare-data-update.ts:210-279 | the reasons given are exactly those that apply: a changed faction count, fewer exports, more conflicts of each kind, lost counts, and every faction that could be exported and no longer can; none exactly when nothing got worse |
| MappingRegression.AcceptedRunNeverWorse | scripts/prepare-data-update.ts:200-279 | over any run of accepted updates the last release is no worse than any before it |
| ChannelState.ChainKept | scripts/build-data-bundle.ts:506-516 | a complete history stays complete while immutable files only grow |
| ChannelState.ServesKept | scripts/build-data-bundle.ts:506-523 | adding immutable files under an unchanged pointer keeps the channel served |
| ChannelState.ChainGrows | scripts/build-data-bundle.ts:807-934 | a new pointer on a complete chain makes a longer complete chain |
| ChannelState.TornStays | scripts/build-data-bundle.ts:506-516 | a torn immutable file is never repaired while immutable files are written once |
| ChannelPublication.NextPointerExtends | lib/rosterpilot/data-bundle.ts:476-510 | the pointer a publication writes passes the pointer validator and extends the previous one by one revision and its hash |
| ChannelPublication.Root.WriteImmutable | scripts/build-data-bundle.ts:506-516 | an immutable file is written once; a second write succeeds only with the same content, and no other file changes |
| ChannelPublication.Root.WriteAtomic | scripts/build-data-bundle.ts:518-523 | a file is replaced whole or not at all |
| ChannelPublication.Root.Publish | scripts/build-data-bundle.ts:807-934 | wherever it stops, the pointer is the old one with everything it names, or the new one with everything it names, also when the previous pointer has no history entry yet; immutable files never change; undisturbed it completes exactly when nothing it writes once and for all is there with other content and no temporary file is left over |
| ChannelPublication.Root.CopyTree | scripts/prepare-data-bundle-update.ts:1020-1047 | the wanted files arrive unchanged, or an existing different one stops the copy; nothing else changes; undisturbed it completes exactly when no existing file differs |
| ChannelPublication.Root.Promote | scripts/prepare-data-bundle-update.ts:1059-1089 | wherever it stops the pointer is the old or the new one with everything it names; undisturbed it completes exactly when no bundle or history file is there with other content, whatever pointer is in force |
| ChannelPublication.Root.Run | scripts/prepare-data-bundle-update.ts:1020-1089 | over any run in which pointers are read, published on or built on at any later time, and candidates promoted at any later time, each cut anywhere: started from a valid pointer whose own predecessor is complete, or from none, the channel serves from the first completed move on, immutable files never change, and every move goes to a valid pointer built as the next link after one that had been in force; it is the next link after the one in force exactly when it was built on that one |
| ChannelPublication.FreshRunCounts | scripts/prepare-data-bundle-update.ts:1059-1089 | when every move was built on the pointer in force, every move is the next link and revisions count the moves without a gap |
| ChannelPublication.StaleCandidateMovesBack | scripts/prepare-data-bundle-update.ts:1059-1089 | promotion accepts a candidate built before two further publications: the pointer in force goes from revision 2 back to revision 1, not the next link, and the channel still serves |
| JsonPointer.UnescapeEscape | lib/rosterpilot/combat-corpus-conformance.ts:676-678 | reading an escaped token back as RFC 6901 does gives the token |
| JsonPointer.RenderInjective | lib/rosterpilot/combat-corpus-conformance.ts:680-687 | equal pointers have equal segment lists |
| JsonPointer.ApartStaysApart | lib/rosterpilot/combat-corpus-conformance.ts:680-687 | positions that part at some segment never get the same pointer, whatever follows |
| JsonPointer.DecimalReads | lib/rosterpilot/combat-corpus-conformance.ts:676-678 | an index is written in the digits that read as that number, without a leading zero |
| EffectTree.ClassifyGood | lib/rosterpilot/combat-corpus-conformance.ts:554-674 | a container's children are parts of the node, at least one, at positions that part from each other |
| EffectPositions.ClassifyIff | lib/rosterpilot/combat-corpus-conformance.ts:381-674 | every node is classified as a table of types says: where a container of that type holds nested effects, its children are exactly what stands at those positions, and leaf, malformed, empty and unknown nodes are told apart exactly |
| EffectPositions.ListChildren | lib/rosterpilot/combat-corpus-conformance.ts:500-540 | a list field of n entries gives n children, in order, one for each entry |
| InventoryTraversal.VisitPointers | lib/rosterpilot/combat-corpus-conformance.ts:756-814 | every fragment sits at or below the start pointer and no pointer is given twice |
| InventoryTraversal.VisitOneForOne | lib/rosterpilot/combat-corpus-conformance.ts:756-814 | leaves follow the terminal fragments and issues the untraversable ones, one for one and in order |
| InventoryTraversal.VisitPaths | lib/rosterpilot/combat-corpus-conformance.ts:756-814 | every container is an ancestor of some leaf, and a leaf's ancestors are distinct containers above it, unless two ids of this very tree collide |
| InventoryCompleteness.VisitExact | lib/rosterpilot/combat-corpus-conformance.ts:725-805 | the traversal lists exactly what the effects that can be reached call for: the fragment of each at its own pointer, a leaf with the ids of the containers on the way for each that is not a container, and the issue of each that cannot be traversed; nothing is left out and nothing added |
| InventoryCompleteness.LeadsStands | lib/rosterpilot/combat-corpus-conformance.ts:685-805 | the position written into an effect's pointer is where that effect stands in the whole tree |
| InventoryValidity.DraftCollected | lib/rosterpilot/combat-corpus-conformance.ts:738-817 | what the builder collects from distinct sources meets every rule of the validator other than the joined keys, unless two of its own ids collide |
| InventoryValidity.DraftValidIff | lib/rosterpilot/combat-corpus-conformance.ts:185-365 | the collected draft, no two of whose own ids collide, is valid exactly when no two fragments share a source id and pointer joined by NUL |
| InventoryValidity.NoNulNoClash | lib/rosterpilot/combat-corpus-conformance.ts:201-208 | source ids without NUL never share a joined key |
| InventoryValidity.NulCanClash | lib/rosterpilot/combat-corpus-conformance.ts:201-208 | with a NUL in a source id two distinct fragments can, and the builder refuses a sound inventory |
| InventoryValidator.Unique | lib/rosterpilot/combat-corpus-conformance.ts:36-49 | the set-size test holds exactly when no value repeats |
| InventoryValidator.CheckLeaves | lib/rosterpilot/combat-corpus-conformance.ts:238-287 | the leaf pass: every leaf sound, leaves counted per fragment, containers on their paths noted |
| InventoryValidator.CheckRoles | lib/rosterpilot/combat-corpus-conformance.ts:289-311 | the role pass over fragments, with the counts and notes of the leaf pass |
| InventoryValidator.CheckIssues | lib/rosterpilot/combat-corpus-conformance.ts:318-338 | the issue pass: every issue names its fragment exactly, issues counted |
| InventoryValidator.CheckRoots | lib/rosterpilot/combat-corpus-conformance.ts:350-364 | every declared root exists with its digest |
| InventoryValidator.Validate | lib/rosterpilot/combat-corpus-conformance.ts:185-365 | the validator raises no issue exactly on valid inventories |
| InventoryBuilder.NormalizeKeepsValid | lib/rosterpilot/combat-corpus-conformance.ts:689-710 | sorting neither creates nor removes a fault |
| InventoryBuilder.Collect | lib/rosterpilot/combat-corpus-conformance.ts:738-817 | the loop over sources collects the specified draft |
| InventoryBuilder.BuildInventory | lib/rosterpilot/combat-corpus-conformance.ts:719-836 | no source, a repeated source id and a draft that is not a valid inventory are refused, and told apart; otherwise the sorted draft is returned |
| InventoryCompleteness.BuiltExact | lib/rosterpilot/combat-corpus-conformance.ts:704-830 | a built inventory lists exactly what the effects below its sources call for |
| InventoryBuilder.BuildAlwaysValid | lib/rosterpilot/combat-corpus-conformance.ts:719-836 | for every finite effect tree and distinct source ids without NUL, the built inventory passes its own validator, unless two of its own ids collide |
| InventoryBuilder.OrderIndependent | lib/rosterpilot/combat-corpus-conformance.ts:689-836 | for any sources, valid or not and with repeats, the inventory (and so its hash) or the refusal does not depend on their order |
| CorpusReport.CheckOverlay | lib/rosterpilot/combat-corpus-conformance.ts:932-1008 | an overlay is accepted exactly when its entry ids are distinct, no two phase mappings and no two scope classifications share a source id and pointer joined by NUL, and no entry is empty or repeats itself |
| CorpusReport.OncePerPlaceIff | lib/rosterpilot/combat-corpus-conformance.ts:965-1000 | the key test for single entries holds exactly when no two phase mappings and no two scope entries have sources and pointers that join to the same text |
| CorpusReport.CheckAccount | lib/rosterpilot/combat-corpus-conformance.ts:1320-1372 | an account is accepted exactly when state keys, evidence and disposition fit together |
| CorpusReport.MakeSummary | lib/rosterpilot/combat-corpus-conformance.ts:1442-1495 | the loop counts the accounts of each disposition |
| CorpusReport.CheckReport | lib/rosterpilot/combat-corpus-conformance.ts:1497-1577 | a report is accepted exactly when its inventory is valid, it has one sound account for every leaf and no other, within the supported state keys, and its binding and summary are those of its contents |
| CorpusAdmission.PhasesEqualIff | lib/rosterpilot/combat-corpus-conformance.ts:1794-1802 | comparing normal forms compares the sets of phases |
| CorpusAdmission.ValidateBindings | lib/rosterpilot/combat-corpus-conformance.ts:1094-1187 | no issue is raised exactly when overlay and inventory bear their own digests, belong together, and every entry is bound to a current entity and a current fragment |
| CorpusAdmission.LeafFragmentPath | lib/rosterpilot/combat-corpus-conformance.ts:1756-1773 | the fragments returned are exactly those on the way from the root of the effect to the leaf |
| CorpusAdmission.BindingMatches | lib/rosterpilot/combat-corpus-conformance.ts:1775-1792 | true exactly when the binding names the current entity and a fragment on the leaf's path |
| CorpusAdmission.AccountIssues | lib/rosterpilot/combat-corpus-conformance.ts:1935-2063 | the body of the loop raises exactly the codes that apply to the account |
| CorpusAdmission.EvaluateStrictAdmission | lib/rosterpilot/combat-corpus-conformance.ts:1804-2066 | the evaluation throws exactly on an expectation that repeats a state key once both schemas are met, and otherwise returns exactly the issues there are; none exactly on an admissible report |
| CorpusAdmission.AdmissibleIff | lib/rosterpilot/combat-corpus-conformance.ts:1804-2066 | a report is admissible, as one condition on all its parts, exactly when no issue of any code can be raised and nothing is thrown |
| CorpusAdmission.AdmittedLeafSettled | lib/rosterpilot/combat-corpus-conformance.ts:1804-2066 | every leaf of an admitted report has one account, and it settles the leaf: what is calculated acts in the shooting or fight phase on evidence from a fragment of its own effect or from a current review of one, within the caller's state keys; what is set aside was reviewed where the program asks for it; nothing is unsupported, and the leaf was fully traversed |
| CorpusCreation.CreateReport | lib/rosterpilot/combat-corpus-conformance.ts:1644-1694 | making a report refuses an unsound inventory, overlay or draft, an unsealed inventory and a stale overlay, and nothing else: the last schema check on the sealed report never fails |
| CorpusCreation.SealedIsNormal | lib/rosterpilot/combat-corpus-conformance.ts:1583-1642 | a sealed report is its own normal form, so its digest covers exactly what it says |
| CorpusSeals.SealIff | lib/rosterpilot/combat-corpus-conformance.ts:1583-1634 | two sealed reports carry the same digest exactly when they differ in nothing but order and repetitions, unless their own drafts collide |
| CorpusSeals.InventorySealIff | lib/rosterpilot/combat-corpus-conformance.ts:689-717 | two sealed inventories carry the same digest exactly when they have the same bundle and list the same things, unless their drafts collide |
| CorpusSeals.OverlaySealIff | lib/rosterpilot/combat-corpus-conformance.ts:1011-1066 | two sealed overlays carry the same digest exactly when bundle, inventory and entries are the same up to order and repetitions, unless their drafts collide |
| CorpusCreation.CreatedAdmittedIff | lib/rosterpilot/combat-corpus-conformance.ts:1644-1732 | a report that was made is strictly admitted exactly when the caller runs what it was made with and supports its state keys, everything was traversed, and every account, as given before sorting and normalizing, is admitted; its digests, schema and overlay bindings always hold |
| Sha256Padding.PaddedIsFips | lib/rosterpilot/draft.ts:122-129 | the padded bytes are, as bits, the padding of section 5.1.1 of FIPS 180-4 with the smallest number of zero bits |
| Sha256Padding.PaddedInjective | lib/rosterpilot/draft.ts:122-129 | padding is injective on messages |
| Sha256Padding.PaddedLength | lib/rosterpilot/draft.ts:123-123 | a multiple of 64 bytes with room for the marker and the length, and no larger than needed |
| Sha256Constants.RoundConstants | lib/rosterpilot/draft.ts:103-120 | each round constant is the first 32 fraction bits of the cube root of its prime |
| Sha256Constants.InitialConstants | lib/rosterpilot/draft.ts:130-133 | the initial words are the first 32 fraction bits of the square roots of the first eight primes |
| Sha256.XorAgrees | lib/rosterpilot/draft.ts:142-149 | the signed result of `^`, brought back to 32 bits, is the word operation |
| Sha256.RotateAgrees | lib/rosterpilot/draft.ts:135-136 | the signed rotation, brought back to 32 bits, is ROTR |
| Sha256.ScheduleWordAgrees | lib/rosterpilot/draft.ts:142-151 | one schedule word from signed intermediates and a single `>>> 0` is the word sum of section 6.2.2 |
| Sha256.TemporariesAgree | lib/rosterpilot/draft.ts:155-163 | both temporaries from signed intermediates are the word sums of section 6.2.2 |
| Sha256.Pad | lib/rosterpilot/draft.ts:122-129 | the array filled in place is the padded message |
| Sha256.LengthBytes | lib/rosterpilot/draft.ts:128-129 | the two 32-bit writes are the 64-bit length |
| Sha256.FillSchedule | lib/rosterpilot/draft.ts:138-152 | the array of 64 words filled in place is the message schedule of the block |
| Sha256.RunRounds | lib/rosterpilot/draft.ts:153-172 | the eight variables after the loop are those of section 6.2.2 after 64 rounds |
| Sha256.AddTo | lib/rosterpilot/draft.ts:173-175 | the state array becomes the word-wise sum |
| Sha256.PaddedDigits | lib/rosterpilot/draft.ts:177-179 | `toString(16).padStart` gives the fixed-width digits |
| Sha256.Sha256Of | lib/rosterpilot/draft.ts:102-180 | the in-place computation returns the digest of FIPS 180-4 for every message |
| RosterRebase.OnlySourceData | lib/rosterpilot/draft.ts:1124-1296 | rebasing replaces nothing but `sourceData`, and the roster itself only when compatible |
| RosterRebase.TargetIgnoresSource | lib/rosterpilot/draft.ts:760-847 | the identity computed for a roster does not depend on the source data it carries |
| RosterRebase.TargetRead | lib/rosterpilot/draft.ts:760-847 | the source data a roster is given, field by field: whose hashes it carries, and the two objects hashed for it |
| RosterRebase.SelectedIff | lib/rosterpilot/draft.ts:708-758 | a key is selected exactly when it is one of the configuration's, or a key of some unit: its own, its warlord's, its enhancement's, or one of the two of a piece of equipment carried at least once |
| RosterRebase.SelectionsRead | lib/rosterpilot/draft.ts:785-835 | the selections hashed are one of each unit, with the equipment carried at least once |
| RosterRebase.RebaseRead | lib/rosterpilot/draft.ts:1124-1296 | when a rebase is refused and why, when there is nothing to do, and what is reported besides the roster |
| RosterRebase.EditedCompatibleIff | lib/rosterpilot/draft.ts:1124-1296 | a roster that carries the stamp of another under one bundle is compatible with a second bundle exactly when the engine schema is the same, both make the same choices, and whatever they select has the same hash in both bundles, unless two of the four objects hashed for them collide |
| RosterRebase.CandidateIsCurrent | lib/rosterpilot/draft.ts:1124-1296 | rebasing the returned candidate against the same snapshot gives `current` |
| RosterRebase.StampedCompatibleIff | lib/rosterpilot/draft.ts:868-885 | a stamped roster as it is rebases as compatible to another bundle exactly when the engine schema is the same and every rule and mapping entity its fields select has the same hash, or none, in both, unless two of the four objects hashed for it collide |
| RosterRebase.StampedCurrentIff | lib/rosterpilot/draft.ts:868-885 | against its own bundle a stamped roster is current exactly when it was never migrated; a migrated one is refused as an integrity mismatch |
| RosterRebase.ReviewListsChanges | lib/rosterpilot/draft.ts:1193-1218 | a review lists, ascending and once each, exactly the entities whose hash differs, or all of them for a legacy roster, each as added, removed, changed or unverifiable, with both hashes |
| RosterRebase.LegacyCompatibleIff | lib/rosterpilot/draft.ts:1197-1234 | a legacy roster is compatible exactly when it came from version 2 with the same provenance |
| EditDistance.EditDistance | lib/rosterpilot/faction-intent.ts:199-217 | the two-row loop returns the recurrence's value |
| EditDistance.NextRow | lib/rosterpilot/faction-intent.ts:204-213 | one row filled from the row above |
| EditDistance.ReachLev | lib/rosterpilot/faction-intent.ts:199-217 | some sequence of single-character edits is as short as the distance |
| EditDistance.LevIsLeast | lib/rosterpilot/faction-intent.ts:199-217 | no sequence of single-character edits is shorter |
| EditDistance.LevZero | lib/rosterpilot/faction-intent.ts:199-217 | the distance is zero exactly on equal strings |
| EditDistance.LevSymmetric | lib/rosterpilot/faction-intent.ts:199-217 | the distance is symmetric |
| EditDistance.LevTriangle | lib/rosterpilot/faction-intent.ts:199-217 | the triangle inequality |
| EditDistance.SimilarityBounds | lib/rosterpilot/faction-intent.ts:219-222 | similarity lies in [0, 1], is 1 exactly on equal strings and is symmetric |
| EditDistance.SimilarityRead | lib/rosterpilot/faction-intent.ts:219-222 | the similarity is the part of the longer text that needs no edit |
| EditDistance.FuzzyIsBest | lib/rosterpilot/faction-intent.ts:224-237 | the fuzzy score is the best of the texts' own similarity and nine tenths of the best pair of tokens |
| EditDistance.FuzzyPerfect | lib/rosterpilot/faction-intent.ts:224-237 | the fuzzy score lies in [0, 1] and is 1 exactly on equal texts, whatever tokens they share |
| MentionSelection.SelectMentions | lib/rosterpilot/faction-intent.ts:339-360 | the selection loop equals its specification |
| MentionSelection.GreedyExact | lib/rosterpilot/faction-intent.ts:339-357 | a candidate is chosen exactly when no chosen earlier candidate overlaps it |
| MentionSelection.LongestMatchWins | lib/rosterpilot/faction-intent.ts:339-357 | every dropped candidate shares a character with a chosen one that is longer, or as long and of a higher priority, or alike in both and starting no later |
| MentionSelection.ChosenInOrder | lib/rosterpilot/faction-intent.ts:339-360 | the chosen mentions are candidates in reading order, each ending before the next begins |
| ShardGraph.Visitor.Visit | lib/rosterpilot/data-bundle.ts:361-374 | the visit fails only on a cycle and otherwise finishes its shard after all its dependencies |
| ShardGraph.VisitAll | lib/rosterpilot/data-bundle.ts:361-384 | accepted exactly when no dependency path returns to its start; then there is an order that loads dependencies first |
| ShardGraph.OrderMeansAcyclic | lib/rosterpilot/data-bundle.ts:361-384 | a dependencies-first order excludes every cycle |
| ShardManifest.Describe | lib/rosterpilot/data-bundle.ts:224-233 | the descriptor map, and the size test for distinct ids |
| ShardManifest.CheckShards | lib/rosterpilot/data-bundle.ts:245-274 | dependencies known and not self, every faction claimed once, owners recorded |
| ShardManifest.ValidateManifest | lib/rosterpilot/data-bundle.ts:220-385 | no issue is raised exactly on valid manifests: distinct ids, one global shard, known and acyclic dependencies, each inventoried faction owned once, sound retained shards |
| ShardManifest.CreateSnapshot | lib/rosterpilot/data-bundle.ts:1377-1441 | a snapshot is made exactly when every declared shard is loaded once and no other is; each refusal is told apart |
| ShardManifest.FactionAnswered | lib/rosterpilot/data-bundle.ts:1419-1437 | in a snapshot of a valid manifest every inventoried faction, and no other, is answered by the one shard that owns it |
| ConditionTree.DefiniteHolds | scripts/sync-bsdata.ts:700-715 | a definite answer is the answer of every completion of the unknown leaves |
| ConditionTree.IndefiniteOpen | scripts/sync-bsdata.ts:700-715 | an indefinite answer is open: some completion says yes and some says no |
| ConditionTree.DefiniteIff | scripts/sync-bsdata.ts:700-715 | a tree answers b exactly when every independent completion of its unknown leaves does |
| ConditionTree.GroupIsTree | scripts/sync-bsdata.ts:717-768 | a condition group is the tree of its conditions, nested groups and local groups |
| ConditionTree.GroupDefiniteIff | scripts/sync-bsdata.ts:717-768 | a condition group answers b exactly when it would whatever its unknown conditions turn out to be |
| ConditionLeaves.ComparisonLaws | scripts/sync-bsdata.ts:645-665 | what each kind of comparison means: at least holds at the threshold and above and fails below, and the other five in terms of it |
| ConditionLeaves.ConditionIff | scripts/sync-bsdata.ts:667-698 | a condition answers exactly when it is readable, of a known kind and about a known count, and then by that count: the models for `model`, how often an id is selected for a node id, the primary catalogue or not |
| ConditionLeaves.LocalIff | scripts/sync-bsdata.ts:717-750 | a local group answers exactly when it is about earlier units of the same entry, and then compares how many there are |
| PointTotals.OrderIsAll | scripts/sync-bsdata.ts:806-815 | the queue loop takes every nested modifier exactly once and ends |
| PointTotals.ActiveIsTree | scripts/sync-bsdata.ts:770-786 | a modifier is active as its condition tree says |
| PointTotals.SelectedNodePointCost | scripts/sync-bsdata.ts:788-852 | the queue loop equals its specification, errors included |
| PointTotals.RunDecided | scripts/sync-bsdata.ts:806-851 | a cost without unresolved reasons is the cost under every way of deciding the conditions |
| PointTotals.CountSelections | scripts/sync-bsdata.ts:882-897 | selections counted by node id and by group id |
| PointTotals.EvaluateResolvedPoints | scripts/sync-bsdata.ts:854-941 | counts first, then the total of all selections, in one pass; the first error wins |
| PointTotals.TotalDecided | scripts/sync-bsdata.ts:854-941 | a total without unresolved reasons is the total under every way of deciding every condition |
| PointOperations.TotalIff | scripts/sync-bsdata.ts:898-941 | a total exists exactly when every selected entry was retained and has a cost; it is the sum of the costs times their counts, unresolved for exactly the reasons of some cost |
| PointOperations.RunIff | scripts/sync-bsdata.ts:806-851 | a cost fails exactly on an active points modifier without an amount, and records exactly the undecided conditions and unsupported operations among its points modifiers |
| PointOperations.SetWins | scripts/sync-bsdata.ts:833-835 | after an active `set` nothing that came before it matters |
| PointOperations.IncrementsAdd | scripts/sync-bsdata.ts:836-838 | active increments add up |
| PointOperations.MultipliesScale | scripts/sync-bsdata.ts:839-841 | active multiplications multiply up |
| PointOperations.OthersChangeNothing | scripts/sync-bsdata.ts:815-846 | inactive modifiers, other cost types and other operations leave the cost as it was |
| PointOperations.CountOne | scripts/sync-bsdata.ts:882-897 | what one selection adds to the count of an id: as a node and as a group |
| PointOperations.CountConcat | scripts/sync-bsdata.ts:882-897 | counts add up over the selections |
| PointOperations.ModelThreshold | scripts/sync-bsdata.ts:667-838 | an entry that costs more from some number of models on costs that more exactly from that number on |
| PointOperations.EarlierThreshold | scripts/sync-bsdata.ts:717-838 | an entry that costs more once some number of the same unit come earlier costs that more exactly from then on |
| ModifierGates.RunWithOwn | scripts/sync-bsdata.ts:806-851 | the loop with each modifier's own answer is the loop of the code: groups above it play no part |
| ModifierGates.GroupsMakeNoDifferenceIff | scripts/sync-bsdata.ts:806-851 | letting groups gate what is in them gives the same cost, whatever amounts the modifiers carry, exactly when every points modifier is inactive itself, or stands under active groups only, or is undecided under groups none of which is inactive |
| ModifierGates.FailingGroupStillCharges | scripts/sync-bsdata.ts:806-851 | an active modifier under a group whose conditions fail is charged; gated by its group it would not be |
| XmlText.ReplaceIsSubstitute | lib/rosterpilot/certification.ts:2112-2117 | one replacement turns the references to its entity, and nothing else, into the character |
| XmlText.DecodeIsOnePass | lib/rosterpilot/certification.ts:2106-2118 | the five replacements in turn read each reference of an accepted text once, as a single pass would |
| XmlText.DecodeEscape | lib/rosterpilot/certification.ts:2106-2118 | decoding undoes escaping the five predefined entities of section 4.6 of XML 1.0 |
| XmlMarkup.RunFlatten | lib/rosterpilot/certification.ts:2144-2203 | reading the markup of a tree adds exactly that tree |
| XmlMarkup.RunTokens | lib/rosterpilot/certification.ts:2144-2203 | every accepted token is part of the markup read so far |
| XmlMarkup.AcceptIff | lib/rosterpilot/certification.ts:2144-2203 | a token sequence is accepted exactly when it is the markup of one tree, and that tree is the answer |
| XmlMarkup.PrintedIsRead | lib/rosterpilot/certification.ts:2120-2203 | reading what a printer writes, attributes in any order and escaped, gives the tree back |
| XmlMarkup.PrintRead | lib/rosterpilot/certification.ts:2120-2203 | every tree can be printed and read back |
| XmlParser.Parser.OpenElement | lib/rosterpilot/certification.ts:2174-2192 | an opening tag extends parent and stack as the machine does |
| XmlParser.Parser.CloseElement | lib/rosterpilot/certification.ts:2166-2173 | a closing tag finishes the top node exactly when the names match |
| XmlParser.ParseCanonicalRos | lib/rosterpilot/certification.ts:2144-2203 | the parser over node objects accepts exactly what the definition accepts and its objects hold that tree |
| XmlCompare.JoinInjective | lib/rosterpilot/certification.ts:2406-2412 | joining attribute names by NUL is injective |
| XmlCompare.CompareNoneIff | lib/rosterpilot/certification.ts:2396-2443 | the comparison raises nothing exactly when the trees are equal |
| XmlCompare.CompareSays | lib/rosterpilot/certification.ts:2396-2443 | what is raised is the first difference of the two trees in document order, under the code of that difference: id, reference, points or tree |
| RoszSelections.SelectionEffect | lib/rosterpilot/enriched-rosz.ts:226-271 | a nested selection, from its opening to its end, adds its models, upgrade points and direct points where they belong |
| RoszSelections.CostEffect | lib/rosterpilot/enriched-rosz.ts:210-225 | a cost sets the points of the open selection and, for a nested upgrade, adds to the top-level one |
| RoszUnits.TopLevelUnits | lib/rosterpilot/enriched-rosz.ts:159-274 | the pass over any tokens equals its fold, filtered by name and count |
| RoszUnits.UnitsOfForest | lib/rosterpilot/enriched-rosz.ts:159-274 | on well-nested tokens every top-level unit is what its own tree says: models from all nested models, points from its last direct cost or its immediate children, plus all nested upgrades |
| RoszProfiles.PassForest | lib/rosterpilot/enriched-rosz.ts:281-335 | on well-nested tokens count i is the profiles inside top-level unit i |
| RoszProfiles.InspectCoverage | lib/rosterpilot/enriched-rosz.ts:281-352 | reported unit i is paired with count i |
| RoszProfiles.AlignedIff | lib/rosterpilot/enriched-rosz.ts:337-352 | that pairing is right exactly when units left out for lack of a name or count all come last |
| RoszProfiles.OwnProfiles | lib/rosterpilot/enriched-rosz.ts:281-352 | then every reported unit is paired with the profiles inside its own selection |
| RoszProfiles.UnnamedUnitShifts | lib/rosterpilot/enriched-rosz.ts:337-352 | an unnamed first unit shifts the profiles: a complete second unit is reported as incomplete |
| Framing.FrameDecoder.Push | local/agent/framing.ts:17-30 | a push drains the buffer as specified; on an error the values of that call are lost |
| Framing.DrainPrefix | local/agent/framing.ts:17-30 | draining the start of a stream gives the frames it holds, in order, and keeps the rest |
| Framing.PushNext | local/agent/framing.ts:17-30 | a push of the next bytes emits exactly the frames they complete, in order, and keeps exactly the bytes of the incomplete one |
| Framing.BufferIsShort | local/agent/framing.ts:17-30 | what is kept is shorter than one frame and is its beginning |
| Framing.Feed | local/agent/framing.ts:14-31 | for every list of frames and every way of cutting their bytes, all pushes together emit exactly the frames received |
| Framing.HeaderRead | local/agent/framing.ts:8-9 | the length read is the length written |
| Framing.SentNext | local/agent/framing.ts:3-11 | a value is encoded exactly when its payload fits a frame, and then adds its frame to the bytes sent |
| Framing.SendAll | local/agent/framing.ts:3-12 | encoding values in turn sends the frames of exactly those that fit, in order |
| Framing.SendAndReceive | local/agent/framing.ts:3-30 | whatever is sent and however its bytes are cut, the receiver gets exactly the values that fit a frame, in order |
| Framing.DrainMeans | local/agent/framing.ts:17-30 | over any bytes at all, a push reads the frames at the front in order, stops at the first malformed or oversized one, and otherwise keeps what is not yet a whole frame |
| Framing.TooLargeStays | local/agent/framing.ts:20-24 | an oversized length stays in front of the buffer: every later push fails the same way and emits nothing |
| Framing.MalformedSkips | local/agent/framing.ts:25-28 | a malformed payload ends the push, its frame is gone, and the next push starts at what follows it |

## Left out

- The update lock of `prepare-data-update.ts`, and so mutual exclusion and what happens after an owner dies.
- Directory creation, file modes, `fsync`, partial sectors, and the check that publish paths stay inside the project.
- Signatures, base64 and Web Crypto: a bundle or pointer is taken as already signed.
- Rollback transitions, more than one channel in a root, and the informational content of reports.
- CrashSafePublish.Disk.Publish: the progress clause asks for an undisturbed run, because removal is not atomic in this model.
- ChannelPublication.Root.Run: what is published on or built on was read from the pointer file earlier in the run, as the callers do; a candidate whose own root was cut off is not promoted.
- Field-level schema checks: trimming, length limits, number ranges and enumerations; a JSON pointer longer than the schema allows is refused by the program and not by the model.
- `translateRules`, `resolveBuffs`, `effectToBuffs` and the lower-casing and trimming of keywords, which enter as functions of what they read.
- BridgeV3Compiler.CompileCombatBridgeV3: the translation of exact rules to v2 inputs (`exactRuleForV2`) enters as a function; the search for inexact leaves is not repeated because `ExactLeavesNothingOut` shows it decides nothing.
- CorpusAdmission.EvaluateStrictAdmission: a report and an overlay are records with their fields in place; schema errors of single fields are not modelled. Creating overlays is left out.
- Texts of diagnostics, issues, reasons and errors; only their codes and severities are kept.
- InventoryTraversal.VisitPointers: values are finite trees, so an object with a cycle or with getters is not modelled.
- Sha256.Sha256Of: starts from encoded bytes (`TextEncoder` is not modelled) and asks for fewer than 2^50 of them, the range in which eight times the length is a safe integer.
- RosterRebase.StampedCompatibleIff: sorted lists inside hashed values are multisets and sorted records are maps, which presumes that `localeCompare` tells different keys apart.
- Parsing and migrating legacy rosters, and the hashes a legacy roster derives for itself.
- EditDistance.SimilarityBounds: over real numbers; the rounding to three decimals of suggested factions is left out.
- Regular expressions and Unicode normalization behind mentions, roles and tokens: models start from candidate intervals and token lists.
- XmlMarkup.AcceptIff: starts from tokens with their attribute lists, so text between tokens and malformed tags are not modelled, nor are attribute names that clash with built-in object properties.
- XmlCompare.CompareNoneIff: compares trees as values and asks that attribute names are not empty and have no NUL, which the tokenizer guarantees.
- `assertEquipmentSelections` and the other structural assertions of the certification run.
- RoszUnits.TopLevelUnits: keeps the ordinal and points of every unit, where the program omits them for a unit with neither an id nor points; stack entries are values in a list, so two references to one entry are not modelled.
- PointTotals.TotalDecided: reals instead of floating point, and catalogue records with their fields already read and trimmed.
- `dependencyDocuments`, `combinedSelectionIndex` and `ordinalBandsForModelCount`.
- Framing.FrameDecoder.Push: the payload encoding is one exact codec for values; `JSON` and UTF-8 themselves are not modelled.
- Network, process, browser and command-line code, and the store that refreshes bundles.
