# Type-graph deduplication, linking and load balancing, verified

This project models the parts of the repository that carry its hardest logic and proves what they
are for. It has four parts.

**BTF deduplication.** `Dedup` is the in-place algorithm: a canonical map, a hypothetical map for the
speculative equivalence check, a growing hash multimap of candidates, and passes over primitive,
composite and reference types followed by compaction and renumbering. A type id means the possibly
infinite tree that unfolding its references gives (`TypeGraph`). Deduplication keeps the meaning of
every id. With FWD resolution on, that is the meaning up to the names that some type of the input
only declares, as a FWD or an enum without enumerators; with resolution off, or where nothing is only
declared, there are no such names and the meaning is exact. Where every declared name has at most one
definition, the exact meaning is kept once all declarations are replaced by their definitions
(`Resolution`). The equivalence check is sound because the pairs it records form a bisimulation
(`HypotMap`), and complete for an input that is a concatenation of compilation units, each closed
under reference and without two types of one meaning other than identical arrays
(`HypotMap.FromUnits`). For such inputs types get one id exactly if they mean the same, unless they
lead to a declared name that has two definitions, or are or refer to a struct or union that is only
declared (`Definitions.Decided`). `DedupSample` and `Copies` say what that comes to for small inputs and
for a unit that occurs twice, `Fields` what a new record has in common with the old one, field by
field. `TypeSection` does compaction on the words of the type section, `TypeWords` writes types as the
words of the format and reads them back, `BtfFile` is the byte-order round trip, `Hashmap` the
multimap. `Dumper` is the traversal by which the C dumper orders definitions, `Order` in `DumpSteps`
the same traversal as a function that also logs its visits, `DumpRuns` what holds for every graph, and
`DumpQueue` which types are queued: a route is what visits lead to in turn, a strong cycle a route that
enters a struct or union twice.

**The XDP load balancer and its servers.** `LoadBalancer` processes a frame in place and updates the
BPF maps; `Balancing` is the same step on values. A full hash map refuses new keys, an array index
past the end finds nothing, a full queue refuses a value. `Cluster` puts the balancer, any number of
servers and a network that may lose and reorder but not duplicate packets together as a state
machine; `ClusterRuns` proves what holds in every run. Hypotheses: addresses are distinct and not
zero, fewer than 2^16 servers exist, each sends its start ping once, only servers send 1-byte
packets. That lengthening a packet succeeds is a hypothesis only where a lemma says so. `ServerSteps` is the
server program as interleaved steps, `ServerProcess` the same in place, and `ServerSite` the cluster
with servers that run it. `Frames` says in bytes which frames are pings and jobs, and where a
transmitted frame goes.

**The sub-program linker.** `Linker` appends to a main program every sub-program it reaches and
points each reference at its target; `LinkMeaning` proves that the image runs like the separate
functions, if every reference names the start of its target. `References` writes references in each
of the forms a compiler uses. Hypotheses: programs are not empty and do
not overlap, relocations are strictly sorted, and no instruction refers to a main program.

**The perf ring reader.** `RingReader` hands records to a callback in one piece each.

Predicates named `Valid`, `Inv`, `StateOk`, `Progress` and the like are the invariants; classes hold
the mutable state, and the lemmas speak about snapshots of it. Ghost parameters such as `unit`,
`input`, `path`, `fin` and `budget` name what the proof follows and do not influence the code.

Where the code and its comments differ, or the code does not do what it is for, the model follows the
code. Seven cases, with the lemmas that give an input and say exactly when the code does what it is
meant to do:

- A sub-program reference may name an instruction other than the first; the code treats it as one to
  the first (`LinkSample.MiddleMissed`, `LinkMeaning.ReferenceMeets`).
- A struct that would have to be defined before itself may be ordered without an error, and a typedef
  queued twice. A prototype is never marked, so it can be visited once through a pointer, which makes
  a typedef count as ordered, and once otherwise (`DumpSample`, `DumpRuns.LoopsExactly`,
  `DumpRuns.QueuedOnce`). In C that takes a function type as a member or parameter that is no pointer.
- The result type of a prototype is not counted as referred to, although the comment speaks of any
  other type, so an anonymous enum that only a prototype returns is queued by itself
  (`DumpSample.ResultNotCounted`, `DumpQueue.RefersToExactly`).
- A job taken off the queue is lost if the packet cannot be lengthened, since the length is checked
  after the pop (`LoadBalancer.Balancer.SendQueued`, `Balancing.PingConservesWork`).
- The server tests its limit of five threads before the handlers count themselves
  (`ServerSteps.LimitExceeded`, `ServerSteps.LimitExactly`, `ServerSteps.RunKeepsLimit`); behind the
  balancer the limit holds (`ServerSite.ThreadsFit`).
- A handler of the server reads a variable that the receive loop may have assigned again, so the total
  may drift (`ServerSteps.SecondCountsTwice`, `ServerSteps.TotalIsExact`).
- The header check adds up in 32 bits and takes the header to be 24 bytes long
  (`BtfFile.OverflowPasses`, `BtfFile.LongHeaderPasses`, `BtfFile.PassesExactly`).

## Model

| member | source | states |
|---|---|---|
| `Dedup.Deduplicate` | A2-A/server/libbpf/src/btf.c:2906-2959 | Deduplication in place, with FWD resolution on or off. On success every input id i has a new id whose type means the same, up to the names that are only declared if resolution is on and exactly otherwise; every new record is that of its representative with new ids for old; new ids are consecutive and keep the order of the representatives; types only merge within their kind, a definition never into a declaration and an enum only into one with the same enumerators; an enum declaration becomes a full enum that agrees with it, if there is one; no two records of an exact kind are equal; and for an input made of self-contained units types that declarations leave decided get one new id exactly if they mean the same. Apart from -EINVAL the outcome is decided by the input: -ELOOP if a reference cycle avoids structs and unions, success if none does. An unknown kind always gives -EINVAL, and there is none when all kinds are known and no struct or union reaches a VAR or DATASEC, as in every input made of units |
| `Dedup.Dedup.Passes` | A2-A/server/libbpf/src/btf.c:2930-2944 | The primitive, struct and reference pass in this order take the initial map to a fully mapped forest in which no two canonical reference types have one record; apart from -EINVAL they fail, with -ELOOP, exactly if there is a reference cycle |
| `Dedup.Dedup.Renumber` | A2-A/server/libbpf/src/btf.c:2945-2954 | Compaction and remapping, without error, turn the state after the passes into the promised graph |
| `Quotient.DedupIsRight` | A2-A/server/libbpf/src/btf.c:2906-2959 | The graph that renumbering leaves is the deduplication of the input: ids in range and order-preserving, meanings and records kept, no equal records, one id per meaning |
| `Quotient.RecordsAreKept` | A2-A/server/libbpf/src/btf.c:4173-4405 | The reference pass and renumbering together replace every reference by the new id of what it referred to, and change nothing else about the records that stay |
| `Quotient.EnumsAreDefined` | A2-A/server/libbpf/src/btf.c:3607-3628 | With resolution on, an enum that is only declared ends up as a full one if any full enum of the input agrees with it |
| `Quotient.IdsTell` | A2-A/server/libbpf/src/btf.c:2906-2959 | Types of one new id mean the same; in an input made of units types that declarations leave decided have one new id if and only if they mean the same |
| `Resolution.ResolvedMeaningKept` | A2-A/server/libbpf/src/btf.c:3760-3774 | Where every declared name has at most one definition, every type exactly keeps its meaning once all declarations are replaced by their definitions, in the input and in the output |
| `Resolution.DefinedAlike` | A2-A/server/libbpf/src/btf.c:3760-3774 | A type has a definition in the output if and only if it has one in the input |
| `Definitions.ComparableAgrees` | A2-A/server/libbpf/src/btf.c:3849-3880 | Types that mean the same up to declared names agree in their records, as far as these define anything, if those names have one definition |
| `DedupSample.HomonymsStay` | A2-A/server/libbpf/src/btf.c:4113-4127 | Two structs of one name and shape with members of different types both stay, with resolution on or off |
| `DedupSample.DeclaredElsewhere` | A2-A/server/libbpf/src/btf.c:3760-3774 | A struct that points to a struct declared in its own unit and defined in another becomes the struct of the other unit, with resolution on |
| `DedupSample.DeclaredStaysApart` | A2-A/server/libbpf/src/btf.c:3860-3866 | With resolution off, the two stay apart |
| `Copies.CopyMerges` | A2-A/server/libbpf/src/btf.c:2906-2959 | If the input is a unit and a copy of it, every type of the copy, of any kind but VAR and DATASEC, becomes the type it is a copy of, unless it is or refers to a struct or union that is only declared |
| `Fields.RecordKeptExactly` | A2-A/server/libbpf/src/btf.c:4467-4535 | Where the ids of a record are, kind by kind: the record that deduplication leaves differs from the old one in exactly these fields, each of which holds the new id of the old one |
| `Quotient.RefCongruence` | A2-A/server/libbpf/src/btf.c:4173-4279 | After the reference pass two reference types share a representative if and only if they have one shape and their references share representatives pairwise |
| `Quotient.OneRootEach` | A2-A/server/libbpf/src/btf.c:2906-2959 | For an input made of units of distinct types, two ids that declarations leave decided share a representative if and only if they mean the same, with resolution on or off |
| `Quotient.MeaningsMerged` | A2-A/server/libbpf/src/btf.c:4173-4279 | The induction behind it, along the order in which reference types are finished |
| `Quotient.LeavesMerged` | A2-A/server/libbpf/src/btf.c:3570-3652 | Primitives and composites of one meaning share a representative, unless they are merely declared |
| `Quotient.OutputDistinct` | A2-A/server/libbpf/src/btf.c:4281-4294 | No two output records of a reference kind, or of a primitive kind other than FWD, are equal |
| `Quotient.NewIdClass` | A2-A/server/libbpf/src/btf.c:3994-4055 | An id is renumbered to a type of its own kind; a FWD may become a definition of the kind it declares, never the other way round; a full enum becomes one with the same enumerators |
| `TypeGraph.BisimulationIsSound` | A2-A/server/libbpf/src/btf.c:3725-3817 | Ids related by a bisimulation up to sameness of meaning have equal unfoldings at every depth |
| `TypeGraph.RedirectionPreservesMeaning` | A2-A/server/libbpf/src/btf.c:4173-4279 | Pointing references of one record at ids of the same meaning changes the meaning of no id, also on cyclic graphs |
| `TypeGraph.SameMeaningStep` | A2-A/server/libbpf/src/btf.c:3725-3817 | Ids of one meaning stand under one declared name, or have one shape and children of one meaning |
| `TypeGraph.ClearIsExact` | A2-A/server/libbpf/src/btf.c:3725-3817 | A type that leads to no declared name has its exact meaning |
| `BtfTypes.ShapeAndRefsDetermine` | A2-A/server/libbpf/src/btf.c:4467-4535 | A record is determined by its shape and the ids that the id visitor visits |
| `BtfTypes.SetRefChangesOneRef` | A2-A/server/libbpf/src/btf.c:4467-4535 | Overwriting the i-th visited id changes that id and nothing else about a record |
| `BtfCompare.HashStruct` | A2-A/server/libbpf/src/btf.c:3336-3350 | The loop over the members computes the hash under which a struct or union is filed |
| `BtfCompare.CompositeHashIgnoresRefs` | A2-A/server/libbpf/src/btf.c:3336-3350 | Composites of one shape have one hash, since the ids of their members are left out |
| `BtfCompare.EqualEnum` | A2-A/server/libbpf/src/btf.c:3295-3314 | True exactly for equal records |
| `BtfCompare.CompatEnum` | A2-A/server/libbpf/src/btf.c:3321-3329 | True exactly for equal records, or for enums that agree when one of them has no enumerators |
| `BtfCompare.ShallowEqualStruct` | A2-A/server/libbpf/src/btf.c:3357-3376 | True exactly for composites of one shape |
| `BtfCompare.EqualFnproto` | A2-A/server/libbpf/src/btf.c:3455-3474 | True exactly for equal records |
| `BtfCompare.CompatFnproto` | A2-A/server/libbpf/src/btf.c:3481-3501 | True exactly for prototypes of one shape |
| `CanonMap.PointToRoot` | A2-A/server/libbpf/src/btf.c:3618-3648 | Pointing an id at a root keeps the canonical map a forest |
| `CanonMap.PointRoot` | A2-A/server/libbpf/src/btf.c:3994-4055 | Pointing a root into another tree keeps the canonical map a forest |
| `CanonMap.RootIgnoresRank` | A2-A/server/libbpf/src/btf.c:3679-3684 | Where an id resolves to depends on the map alone |
| `Dedup.Dedup.constructor` | A2-A/server/libbpf/src/btf.c:3073-3131 | The initial state satisfies every invariant: VAR, DATASEC and void stand for themselves, nothing else is mapped |
| `Dedup.Dedup.ResolveTypeId` | A2-A/server/libbpf/src/btf.c:3679-3684 | Terminates from every id of a forest and gives its root |
| `Dedup.Dedup.ResolveFwdId` | A2-A/server/libbpf/src/btf.c:3690-3704 | A resolved forward declaration is replaced by its definition, any other id stays |
| `Dedup.Dedup.IdenticalArrays` | A2-A/server/libbpf/src/btf.c:3713-3723 | True exactly for two arrays with one record |
| `Dedup.Dedup.HypotMapAdd` | A2-A/server/libbpf/src/btf.c:3014-3029 | Records one pair in map and list, which stay each other's domain |
| `Dedup.Dedup.ClearHypotMap` | A2-A/server/libbpf/src/btf.c:3031-3039 | Unmaps everything by going over the list alone |
| `Dedup.Dedup.IsEquiv` | A2-A/server/libbpf/src/btf.c:3818-3966 | Terminates since every continuing call fixes a fresh canonical id; 1 means that every pair recorded since the call has been explored and fits and that the two ids match; for ids of one meaning in a unit of distinct types it is 1, with resolution on if every declared name has one definition or the unit has none |
| `Dedup.Dedup.MatchPair` | A2-A/server/libbpf/src/btf.c:3848-3966 | Records a fresh pair; on 1 that pair and all recorded below it are explored |
| `Dedup.Dedup.CheckPair` | A2-A/server/libbpf/src/btf.c:3851-3966 | Explores a recorded pair kind by kind, with and without FWD resolution |
| `Dedup.Dedup.LeafEquiv` | A2-A/server/libbpf/src/btf.c:3882-3894 | Of two primitives of one kind: equal records, or with FWD resolution enums that agree when one has no enumerators |
| `Dedup.Dedup.ShallowEquiv` | A2-A/server/libbpf/src/btf.c:3896-3945 | Before any child is followed, 1 exactly for one shape; -EINVAL exactly for a kind that is neither composite nor reference |
| `Dedup.Dedup.ArrayEquiv` | A2-A/server/libbpf/src/btf.c:3906-3917 | The index type is compared before the element type; on 1 both match |
| `Dedup.Dedup.RefsEquiv` | A2-A/server/libbpf/src/btf.c:3919-3960 | Children are compared in order up to the first difference; on 1 all of them match |
| `HypotMap.SaneKind` | A2-A/server/libbpf/src/btf.c:3962-3963 | Where all kinds are known and no VAR or DATASEC is reached, the error branch is not reached |
| `HypotMap.UnitsCheckable` | A2-A/server/libbpf/src/btf.c:3962-3963 | Inputs made of units are of that sort |
| `DedupState.TableSmall` | A2-A/server/libbpf/src/btf.c:3008-3012 | Every id is filed at most once, so the table never holds more entries than there are types |
| `Dedup.Dedup.FileCanonical` | A2-A/server/libbpf/src/btf.c:3008-3012 | A new representative is filed under its hash, and the table never refuses it |
| `HypotMap.EquivalenceIsSound` | A2-A/server/libbpf/src/btf.c:3818-3966 | Once every recorded pair is explored, the pairs are a bisimulation up to merged ids and identical arrays, so each pair has one meaning |
| `HypotMap.MatchedOnce` | A2-A/server/libbpf/src/btf.c:3834-3848 | In a unit of distinct types an id already matched is matched with this candidate or an identical array |
| `HypotMap.PairMustMatch` | A2-A/server/libbpf/src/btf.c:3848-3966 | A pair of one meaning in a unit has records that fit, where a declaration fits a definition of its name, and if they have one shape its children must match too |
| `HypotMap.TargetMustMatch` | A2-A/server/libbpf/src/btf.c:3690-3704 | Replacing a declaration of the canonical graph by the definition it has been resolved to keeps the meaning to be matched |
| `Dedup.Dedup.MergePair` | A2-A/server/libbpf/src/btf.c:4002-4053 | Resolves a declaration or maps a candidate composite to an established representative; settled representatives stay, and the pair has no declared-only side left if one side is a definition |
| `Dedup.Dedup.MergeHypotMap` | A2-A/server/libbpf/src/btf.c:3994-4055 | Does so for every recorded pair and keeps forest, kinds, table and all meanings; afterwards no recorded pair of a declaration and a definition is unresolved |
| `DedupSteps.MergeAssigns` | A2-A/server/libbpf/src/btf.c:4028-4052 | One assignment of the merge keeps all invariants, splits no class and un-resolves no declaration |
| `DedupSteps.RootAfterPoint` | A2-A/server/libbpf/src/btf.c:3994-4055 | What shared a root still shares one after a root is re-pointed |
| `DedupSteps.NewCompositeDistinct` | A2-A/server/libbpf/src/btf.c:4130-4132 | If no candidate of its hash means the same as a composite, no representative does |
| `DedupSteps.EquivalentIsFiled` | A2-A/server/libbpf/src/btf.c:4098-4100 | A representative that means the same as a composite is filed under the composite's hash |
| `Dedup.Dedup.TryCandidate` | A2-A/server/libbpf/src/btf.c:4113-4127 | Accepts a candidate only if it has the same shape and means the same, after a check in which every recorded pair of types was explored and fits, and after merging the two graphs so that no pair is left unresolved, with resolution on or off; must accept one of the same meaning in a unit of distinct types; otherwise leaves map and types alone |
| `DedupSteps.CheckedMeaning` | A2-A/server/libbpf/src/btf.c:3818-3966 | What the check has accepted means the same |
| `DedupSteps.MergedIsFound` | A2-A/server/libbpf/src/btf.c:4113-4127 | A completed check and the merge of all that it recorded make a candidate equivalent |
| `Dedup.Dedup.FindStruct` | A2-A/server/libbpf/src/btf.c:4099-4128 | The first equivalent candidate, or none of the composites among them means the same |
| `Dedup.Dedup.StructType` | A2-A/server/libbpf/src/btf.c:4079-4135 | A composite ends up mapped; everything else keeps its representative; representatives of composites stay pairwise different in meaning |
| `Dedup.Dedup.StructTypes` | A2-A/server/libbpf/src/btf.c:4137-4147 | After the pass every composite and primitive is mapped and all invariants hold; step by step, each composite without a target has become a representative or has been found equivalent to its target |
| `StructSteps.StructAdvances` | A2-A/server/libbpf/src/btf.c:4137-4147 | One composite takes the progress of the pass one id further |
| `Dedup.Dedup.TryEnum` | A2-A/server/libbpf/src/btf.c:3607-3628 | One candidate for an enum: it may represent it if it has the same record or, with FWD resolution, is a full enum for a declaration; a declaration that agrees with a new full enum is sent to it |
| `Dedup.Dedup.FindEnum` | A2-A/server/libbpf/src/btf.c:3607-3628 | The representative of an enum: the first candidate that may represent it; otherwise none of them does |
| `Dedup.Dedup.PrimType` | A2-A/server/libbpf/src/btf.c:3570-3652 | One id further: a primitive is mapped to a type that may represent it or filed; -EINVAL exactly for an unknown kind |
| `Dedup.Dedup.PrimTypes` | A2-A/server/libbpf/src/btf.c:3654-3664 | After the pass every int, float, enum and FWD is mapped, full enums to equal canonical enums; a declared-only representative agrees with no full enum |
| `PrimSteps.PrimFiled` | A2-A/server/libbpf/src/btf.c:3647-3649 | Filing a primitive that no candidate may represent keeps the invariants of the pass |
| `PrimSteps.PrimMapped` | A2-A/server/libbpf/src/btf.c:3607-3647 | Mapping a primitive to a candidate keeps them, also when a declaration chain grows |
| `PrimSteps.EnumRepoint` | A2-A/server/libbpf/src/btf.c:3618-3625 | Sending a declared enum to the full enum being processed keeps the map a forest and all meanings |
| `PrimSteps.FileExact` | A2-A/server/libbpf/src/btf.c:4274-4276 | A type without an equal candidate may represent itself: no two canonical records of an exact kind are equal |
| `Dedup.Dedup.RefType` | A2-A/server/libbpf/src/btf.c:4173-4279 | Terminates; settled ids keep their targets; the result is the representative of the id; -ELOOP only from a reference cycle |
| `Dedup.Dedup.RefChildren` | A2-A/server/libbpf/src/btf.c:4190-4254 | Replaces the references of a type by their representatives, in order |
| `Dedup.Dedup.RefTypes` | A2-A/server/libbpf/src/btf.c:4281-4294 | -ELOOP if and only if some reference cycle avoids structs and unions; otherwise success, with every id mapped |
| `RefSteps.OrderedIsAcyclic` | A2-A/server/libbpf/src/btf.c:4150-4172 | An order of all reference types in which each follows those it refers to rules out cycles |
| `RefSteps.CycleFound` | A2-A/server/libbpf/src/btf.c:4182-4183 | Coming back to an id in progress closes a cycle of reference types |
| `RefSteps.RefSet` | A2-A/server/libbpf/src/btf.c:4197-4200 | Overwriting a reference by its representative keeps the invariant of the traversal, and all meanings |
| `RefSteps.RefFiled` | A2-A/server/libbpf/src/btf.c:4274-4276 | A finished type without an equal candidate becomes a representative |
| `RefSteps.RefMapped` | A2-A/server/libbpf/src/btf.c:4202-4278 | A finished type takes an equal candidate as representative |
| `DedupState.RootMeaning` | A2-A/server/libbpf/src/btf.c:3679-3684 | If every mapped id means the same as its target, it means the same as its root |
| `DedupState.RootSettled` | A2-A/server/libbpf/src/btf.c:3679-3684 | Roots that are settled stay settled while unmapped ids are mapped |
| `DedupState.PointOk` | A2-A/server/libbpf/src/btf.c:3618-3648 | An assignment to the map keeps the candidate table right: entries canonical, under their hashes, complete |
| `Dedup.Dedup.Candidates` | A2-A/server/libbpf/src/btf.c:3005-3006 | The candidates of a hash are exactly the ids filed under it |
| `Dedup.Dedup.CompactTypes` | A2-A/server/libbpf/src/btf.c:4307-4353 | Canonical types move together in order and in place, no type not yet read is overwritten, and each gets its position as new id |
| `Dedup.Dedup.RemapTypes` | A2-A/server/libbpf/src/btf.c:4385-4405 | Without error, sends every reference of the kept types to the new id of its representative |
| `Dedup.Dedup.RemapRecord` | A2-A/server/libbpf/src/btf.c:4361-4373 | Every visited id becomes a valid new id; the shape stays |
| `Renumber.KeptExact` | A2-A/server/libbpf/src/btf.c:4307-4353 | The kept ids are exactly the canonical ones, increasing, none below its position |
| `Renumber.NewIdInjective` | A2-A/server/libbpf/src/btf.c:4361-4373 | Two ids get one new id exactly if they share a representative |
| `Renumber.OutputMeaning` | A2-A/server/libbpf/src/btf.c:4307-4405 | Every id means the same as its new id in the output graph |
| `Renumber.OutputOk` | A2-A/server/libbpf/src/btf.c:4385-4405 | Every remapped reference is a valid new id and the output graph is well formed |
| `TypeSection.Compact` | A2-A/server/libbpf/src/btf.c:4324-4353 | As memory: the words that remain are exactly those of the kept records, in order, and the offset index is exactly where they start |
| `TypeWords.SectionIsCompacted` | A2-A/server/libbpf/src/btf.c:4307-4353 | If the words of the section are those of the types, then after compaction they are the words of the compacted types |
| `TypeWords.InfoIsRead` | A2-A/server/libbpf/include/uapi/linux/btf.h:34-57 | Kind, number of entries and flag are read back from an info word in either byte order |
| `TypeWords.WrittenIsRecord` | A2-A/server/libbpf/src/btf.c:277-311 | For every type written field by field, the parser takes exactly its words for the type |
| `TypeWords.SectionIsIndexed` | A2-A/server/libbpf/src/btf.c:385-421 | The parser indexes a section of any types at exactly the places where they were written |
| `TypeWords.ReadBack` | A2-A/server/libbpf/src/btf.c:277-311 | A type of a known kind is read back from its words as it was written, enumerators with negative values included |
| `TypeWords.SectionIsRead` | A2-A/server/libbpf/src/btf.c:385-421 | So are all types of a section, in order |
| `TypeWords.TypesRoundTrip` | A2-A/server/libbpf/src/btf.c:205-421 | Types written to an image of either byte order, parsed and decoded are the same types, each at its place |
| `SectionRecords.KeptRecords` | A2-A/server/libbpf/src/btf.c:4324-4353 | The kept words hold exactly the kept records, in order |
| `TypeSection.MoveWords` | A2-A/server/libbpf/src/btf.c:4332-4338 | A record moves down intact even if the two places overlap; nothing above it changes |
| `TypeSection.IndexAppends` | A2-A/server/libbpf/src/btf.c:4332-4338 | A record put behind a well-formed section is indexed at the section's end |
| `Hashmap.HashBits` | A2-A/server/libbpf/src/hashmap.h:15-29 | A bucket below the capacity, for every hash |
| `Hashmap.Hashmap.Grow` | A2-A/server/libbpf/src/hashmap.c:101-128 | Rehashing keeps exactly the multiset of entries, each in its bucket, and makes room |
| `Hashmap.Hashmap.FindEntry` | A2-A/server/libbpf/src/hashmap.c:130-152 | Finds an entry if and only if an equal key exists |
| `Hashmap.Hashmap.Insert` | A2-A/server/libbpf/src/hashmap.c:154-204 | Each strategy changes the multiset of entries exactly as it promises; every entry stays in the bucket of its hash; floor(4*size/3) never exceeds the capacity |
| `Hashmap.Hashmap.Find` | A2-A/server/libbpf/src/hashmap.c:206-218 | Finds a value if and only if an equal key exists |
| `Hashmap.Hashmap.Delete` | A2-A/server/libbpf/src/hashmap.c:220-240 | Removes exactly one entry of an equal key, if and only if there is one |
| `Hashmap.Hashmap.KeyEntries` | A2-A/server/libbpf/src/hashmap.h:179-185 | Iteration over a key visits every entry of an equal key as often as it is stored, and no other |
| `BtfFile.RoundTrip` | A2-A/server/libbpf/src/btf.c:205-420 | Writing a BTF with back-to-back sections in either byte order and parsing the image gives the same header, types, index and strings; with a header longer than the standard one, exactly in the byte order of the host |
| `BtfFile.BtfImage.Parse` | A2-A/server/libbpf/src/btf.c:795-843 | For every image of which nothing outside is read: succeeds exactly on well-formed images and then holds what they say, in the byte order of the host |
| `BtfFile.BtfImage.ParseTypeSec` | A2-A/server/libbpf/src/btf.c:385-421 | Swaps a section of the other byte order in place, word for word, and indexes exactly its types; fails exactly on malformed sections |
| `BtfFile.BtfImage.GetRawData` | A2-A/server/libbpf/src/btf.c:1247-1295 | The image in the wanted byte order, though each info word must be read before it is swapped |
| `BtfFile.SwapTypeRest` | A2-A/server/libbpf/src/btf.c:320-383 | Swaps exactly the words that follow a type, or fails on an unknown kind |
| `BtfFile.BtfImage.CheckSections` | A2-A/server/libbpf/src/btf.c:238-255 | Accepts exactly what passes with sums of 32 bits and a header of 24 bytes; the sections lie within the image, aligned, types before strings, if and only if it accepts, no sum overflows, and the strings end within the image |
| `BtfFile.PassesExactly` | A2-A/server/libbpf/src/btf.c:238-255 | So with a header of at most 24 bytes the check is right if and only if no sum overflows |
| `BtfFile.OverflowPasses` | A2-A/server/libbpf/src/btf.c:238-255 | A header whose sum overflows and that passes although its strings lie outside |
| `BtfFile.LongHeaderPasses` | A2-A/server/libbpf/src/btf.c:238-255 | A header longer than 24 bytes that passes although its strings end outside |
| `Dumper.Dumper.DumpType` | A2-A/server/libbpf/src/btf_dump.c:261-281 | One call is one traversal. It queues nothing but types that are declared by themselves and that id leads to, and if it succeeds, id and whatever id holds by value have been queued if they are declared by themselves. Unless it fails, the definition leads to no strong cycle, except through a prototype visited other than through a pointer; with no call failed before, -ELOOP means that it does lead to a strong cycle, and is returned exactly for those if no prototype can be visited other than through a pointer; a cycle by value always gives it |
| `Dumper.NewDumper` | A2-A/server/libbpf/src/btf_dump.c:146-204 | A dumper of any types of known kinds starts with exactly the types marked that some type refers to; -EINVAL exactly for an unknown kind |
| `Dumper.MarkReferenced` | A2-A/server/libbpf/src/btf_dump.c:295-356 | In place: marks exactly the types that some type refers to |
| `DumpQueue.RefersToExactly` | A2-A/server/libbpf/src/btf_dump.c:283-356 | A type other than a FWD counts as referring to every id of its record, except that a prototype does not refer to its result |
| `DumpSample.ResultNotCounted` | A2-A/server/libbpf/src/btf_dump.c:334-341 | An anonymous enum that a prototype returns is not marked |
| `DumpQueue.QueueExactly` | A2-A/server/libbpf/src/btf_dump.c:358-374 | After any calls exactly these have been queued: the typedefs, named structs and unions, named enums and FWDs, and anonymous enums and FWDs that no type refers to, that have been visited other than weakly |
| `DumpQueue.OrderQueues` | A2-A/server/libbpf/src/btf_dump.c:450-592 | A visit queues nothing but what it leads to |
| `DumpQueue.EmbeddedQueued` | A2-A/server/libbpf/src/btf_dump.c:376-449 | Whatever a visited type holds by value, through members, elements, typedefs and modifiers, has been queued if it is declared by itself |
| `DumpQueue.EmbeddedBefore` | A2-A/server/libbpf/src/btf_dump.c:376-449 | It was queued before the type that holds it |
| `DumpQueue.SelfEmbeddingFails` | A2-A/server/libbpf/src/btf_dump.c:474-480 | A type that holds by value a struct or union that holds itself gives -ELOOP |
| `DumpQueue.CallQueues` | A2-A/server/libbpf/src/btf_dump.c:261-281 | What one call queues, and what has been queued after it |
| `Dumper.Dumper.OrderType` | A2-A/server/libbpf/src/btf_dump.c:450-592 | Computes states, queue and result of the visit as the function `Order` gives them |
| `Dumper.Dumper.OrderPtr` | A2-A/server/libbpf/src/btf_dump.c:488-491 | What a pointer points to is visited through a pointer; the pointer is marked even if that fails |
| `Dumper.Dumper.OrderTypedef` | A2-A/server/libbpf/src/btf_dump.c:540-558 | A typedef is queued after what it names, unless that can be declared ahead |
| `Dumper.Dumper.OrderModifier` | A2-A/server/libbpf/src/btf_dump.c:559-567 | Modifiers pass on what they lead to and are never marked |
| `Dumper.Dumper.OrderPrototype` | A2-A/server/libbpf/src/btf_dump.c:568-581 | A prototype visits its result and then its parameters, is to be defined first if one of them is, and is never marked |
| `Dumper.Dumper.OrderComposite` | A2-A/server/libbpf/src/btf_dump.c:496-524 | A struct or union is queued after all its members, unless it is named and behind a pointer |
| `DumpRuns.LoopsExactly` | A2-A/server/libbpf/src/btf_dump.c:376-449 | From a state in which no call has failed, ordering a definition fails with -ELOOP if and only if some struct or union it leads to would have to be defined before itself, provided that no prototype can be visited other than through a pointer |
| `DumpRuns.CallEnds` | A2-A/server/libbpf/src/btf_dump.c:450-592 | Without that condition: -ELOOP only for such a cycle, and success only if every such cycle passes through a prototype visited other than through a pointer, or a pointer marked by an earlier failure |
| `DumpRuns.ByValueCycleFails` | A2-A/server/libbpf/src/btf_dump.c:474-480 | On every graph and in every state, a type that leads by value alone to a struct or union containing itself gives -ELOOP |
| `DumpSample.StrongCycleMissed` | A2-A/server/libbpf/src/btf_dump.c:540-592 | The condition is needed: a struct that holds a function typedef taking that struct, and before it a pointer to the typedef, is ordered without an error |
| `DumpSteps.QueuedInOrder` | A2-A/server/libbpf/src/btf_dump.c:376-449 | Every definition that a queued type needs, by value at any depth or through a pointer to an anonymous struct or union, was queued before it, in this call or an earlier one |
| `DumpSteps.NeedsQueued` | A2-A/server/libbpf/src/btf_dump.c:376-449 | Every definition that a visited type needs has been queued |
| `DumpSteps.VisitedHasNoCycle` | A2-A/server/libbpf/src/btf_dump.c:474-480 | What has been visited leads to no strong cycle |
| `DumpOrder.LoopIsStrong` | A2-A/server/libbpf/src/btf_dump.c:474-480 | The error branch is reached only on a route that enters a struct or union a second time |
| `DumpOrder.TypedefReturns` | A2-A/server/libbpf/src/btf_dump.c:540-558 | A typedef that is finished while it is being visited leads to itself through a prototype not visited through a pointer, and then through a struct or union |
| `DumpRuns.OrderEnds` | A2-A/server/libbpf/src/btf_dump.c:450-592 | Every visit, from any state and at any depth, keeps order and states right, whether it fails or not |
| `DumpRuns.QueuedOnce` | A2-A/server/libbpf/src/btf_dump.c:358-374 | Nothing is queued twice, in one call or in several, unless a typedef can lead to a prototype other than through a pointer |
| `DumpSample.TypedefQueuedTwice` | A2-A/server/libbpf/src/btf_dump.c:540-558 | That condition is needed: ordering the typedef first queues it twice |
| `DumpBudget.BoundSuffices` | A2-A/server/libbpf/src/btf_dump.c:450-592 | The traversal terminates when every cycle of references passes through a struct or union: visits never nest deeper than (n + 1)(n + 2) for n types |
| `Linker.Linker.RelocateCalls` | A2-A/server/libbpf/src/libbpf.c:5741-5763 | Fails exactly if something that the main program reaches cannot be linked; otherwise gives the linked image, whatever was linked before |
| `Linker.Linker.RelocCode` | A2-A/server/libbpf/src/libbpf.c:5533-5657 | Links a program and everything it refers to; terminates on cyclic call graphs since an offset is set before descending |
| `Linker.Linker.Append` | A2-A/server/libbpf/src/libbpf.c:5614-5639 | A sub-program is appended with its relocations and keeps the blocks consecutive |
| `Linker.Linker.AppendSubprogRelos` | A2-A/server/libbpf/src/libbpf.c:5509-5531 | The sub-program's relocations follow, moved by its offset |
| `Linker.Linker.FindTarget` | A2-A/server/libbpf/src/libbpf.c:5549-5602 | Computes the target of a call or function address, or that there is none, from instruction and relocation; for the main program the relocation is looked up in the list that has grown meanwhile |
| `Programs.FindProgBySecInsn` | A2-A/server/libbpf/src/libbpf.c:3754-3777 | Binary search finds the program that contains an instruction if and only if one does |
| `Programs.FindInsnReloc` | A2-A/server/libbpf/src/libbpf.c:5503-5507 | Binary search finds the relocation of an instruction if and only if there is one |
| `LinkImage.BlocksDisjoint` | A2-A/server/libbpf/src/libbpf.c:5614-5626 | The blocks of the image are disjoint, and a zero offset marks exactly what is not placed |
| `LinkImage.LinkingDone` | A2-A/server/libbpf/src/libbpf.c:5614-5657 | The placed programs are exactly those reachable from the main program, each once, and each wholly linked |
| `LinkImage.ProgressResumes` | A2-A/server/libbpf/src/libbpf.c:5634-5644 | While a called program is appended and linked, the one on hold and all finished blocks keep their instructions |
| `LinkImage.ProgressPatches` | A2-A/server/libbpf/src/libbpf.c:5644-5650 | Patching one instruction finishes it and disturbs no other |
| `LinkMeaning.EveryPosition` | A2-A/server/libbpf/src/libbpf.c:5533-5657 | Every position p of the image holds an instruction of a reachable program; it differs at most in its offset, and if it refers to a program, p + 1 + imm is that program's start |
| `LinkMeaning.MergedRelocsSorted` | A2-A/server/libbpf/src/libbpf.c:5509-5531 | The merged relocation list stays sorted |
| `LinkMeaning.RelocFound` | A2-A/server/libbpf/src/libbpf.c:5503-5531 | The relocation found at a position of the image is that of the original instruction |
| `LinkMeaning.ReferenceMeets` | A2-A/server/libbpf/src/libbpf.c:5644-5650 | A reference of the image points at the instruction that the object file names if and only if that is the first of its sub-program |
| `LinkMeaning.CallExactly` | A2-A/server/libbpf/src/libbpf.c:5644-5650 | A call of the image does what the call of the separate functions does if and only if it names the start of its target |
| `LinkMeaning.ImageSimulates` | A2-A/server/libbpf/src/libbpf.c:5659-5740 | If every reference reached names the start of its target, running the image is running the separate functions, step by step, for any number of steps and any meaning of the other instructions |
| `LinkSample.MiddleMissed` | A2-A/server/libbpf/src/libbpf.c:5604-5650 | That condition is needed: a call of the second instruction of a sub-program enters the image at the first |
| `References.ReadBack` | A2-A/server/libbpf/src/libbpf.c:5549-5602 | A reference written to any place in bytes, as a plain call, a call relative to a symbol or a function address, is read as one to instruction j of q if and only if that is the place |
| `References.OutsideUnlinkable` | A2-A/server/libbpf/src/libbpf.c:5595-5602 | It cannot be linked if and only if the place lies in no sub-program |
| `References.CallsMoveAlong` | A2-A/server/libbpf/src/libbpf.c:5587-5593 | Moving all sub-programs within their section changes neither target nor named instruction of a call without relocation |
| `References.CallStaysExactly` | A2-A/server/libbpf/src/libbpf.c:5644-5650 | Linking leaves the offset of such a call to a start as it is if and only if the two programs lie as far apart in the image as in the section |
| `RingReader.RingReader.Read` | A2-A/server/libbpf/src/libbpf.c:9742-9788 | The callback sees the written records in order, each with its own bytes in one piece, until it stops; the tail advances by exactly the sizes of those it saw |
| `RingReader.RingReader.FetchRecord` | A2-A/server/libbpf/src/libbpf.c:9756-9778 | A record that wraps is put together into exactly what was written |
| `RingReader.FirstRecord` | A2-A/server/libbpf/src/libbpf.c:9755-9784 | Consuming the first record leaves the ring holding exactly the others, across the wrap of the 64-bit counters |
| `RingReader.EventIsRecord` | A2-A/server/libbpf/src/libbpf.c:9755-9757 | Bytes of a header and data are a record if and only if the size fits into the 16 bits of its field and is a multiple of eight |
| `RingReader.StretchPieces` | A2-A/server/libbpf/src/libbpf.c:9759-9777 | A stretch of the ring is one piece or two, the second from the start |
| `LoadBalancer.Balancer.Handle` | A2-B/load-balancer/lb.c:222-404 | Every frame does to the maps exactly what the step of its packet does and leaves the frame alone or transmits it as addressed; all others change nothing |
| `Frames.PingsAndJobs` | A2-B/load-balancer/lb.c:222-256 | In bytes, which frames are pings and which are jobs, and that a ping names bytes 26 to 29 as sender, 30 to 33 as the balancer, and 6 to 11 as interface |
| `Frames.OthersUntouched` | A2-B/load-balancer/lb.c:222-256 | All other frames change nothing; they are let through, or aborted if they end within their headers |
| `Frames.JobsGoBack` | A2-B/load-balancer/lb.c:189-404 | In every run a transmitted frame goes back the way an earlier ping came: to its source address and interface, from its destination address; and it carries the payload of a job that has arrived |
| `Frames.SlotStays` | A2-B/load-balancer/lb.c:261-306 | A slot filled by a ping keeps the addresses of that ping for the rest of the run |
| `Frames.SlotsApart` | A2-B/load-balancer/lb.c:258-306 | A later ping with other bytes 26 to 29 is never booked under it |
| `LoadBalancer.Balancer.GetAvailableBackend` | A2-B/load-balancer/lb.c:104-166 | The first registered slot with the most free threads; none exactly if no registered slot has a free one |
| `LoadBalancer.Balancer.SendToBackend` | A2-B/load-balancer/lb.c:189-220 | Takes one thread; the frame then carries the slot's addresses, true lengths, a header checksum that verifies, the same payload and otherwise the same header |
| `LoadBalancer.Balancer.HandlePing` | A2-B/load-balancer/lb.c:252-371 | Registration or completion, with the oldest queued job sent in the same packet |
| `LoadBalancer.Balancer.ServeQueue` | A2-B/load-balancer/lb.c:318-371 | Sends the oldest queued job, if there is one, to the best server |
| `LoadBalancer.Balancer.SendQueued` | A2-B/load-balancer/lb.c:329-357 | Sends the head of the queue; if the packet cannot be lengthened the job is taken off the queue and lost |
| `LoadBalancer.Balancer.HandleJob` | A2-B/load-balancer/lb.c:372-400 | A job is sent at once or queued |
| `Checksum.IpChecksum` | A2-B/load-balancer/lb.c:57-74 | The complement of the word sum after two folds, for any buffer and either byte order |
| `Checksum.TwoFoldsSuffice` | A2-B/load-balancer/lb.c:70-71 | Two folds leave 16 bits of any sum below 2^32 and change nothing modulo 2^16 - 1 |
| `Checksum.StoredChecksumVerifies` | A2-B/load-balancer/lb.c:210-211 | A header with the stored checksum adds up to all ones, as section 3.1 of RFC 791 and section 1 of RFC 1071 ask, on hosts of either byte order |
| `Checksum.VerifiesExactly` | A2-B/load-balancer/lb.c:57-74 | A header verifies if and only if its word sum is a positive multiple of 2^16 - 1 |
| `Balancing.Best` | A2-B/load-balancer/lb.c:104-166 | Of the slots looked at so far, the first registered one with the most free threads |
| `Balancing.BestIsUnique` | A2-B/load-balancer/lb.c:104-166 | That choice is unique |
| `Balancing.JobWellformed` | A2-B/load-balancer/lb.c:372-400 | A job keeps address map, filled slots and credits in order |
| `Balancing.PingWellformed` | A2-B/load-balancer/lb.c:258-316 | Address map and filled slots stay inverses and credits stay within 0..5 if and only if the registration count does not wrap |
| `Balancing.RegistersExactly` | A2-B/load-balancer/lb.c:281-282 | A ping registers if and only if its sender is unknown |
| `Balancing.RegistrationFills` | A2-B/load-balancer/lb.c:261-306 | A newcomer takes the next slot if one is left, and only the count changes otherwise |
| `Balancing.PingCredits` | A2-B/load-balancer/lb.c:307-358 | A completion never finds all servers occupied: the oldest queued job is sent to the best slot after the sender alone has been credited |
| `Balancing.PingConservesWork` | A2-B/load-balancer/lb.c:282-357 | Work conservation survives a ping of an unknown sender if and only if no job is queued or no slot is left, and one of a known sender if and only if at most one job is queued or the packet can be lengthened |
| `Balancing.JobOvertakes` | A2-B/load-balancer/lb.c:378-399 | A job overtakes queued ones if and only if the balancer has left a free thread unused |
| `Balancing.RegistrationLetsOvertake` | A2-B/load-balancer/lb.c:282-306 | A server that registers while jobs are queued gets none of them but the next one to arrive |
| `Balancing.WrappedCountCreditsAnother` | A2-B/load-balancer/lb.c:273-301 | After 2^16 registrations a newcomer's ping credits another server |
| `Cluster.CreditSafety` | A2-B/load-balancer/lb.c:189-316 | In every run, free threads, jobs in flight, handlers, completion pings in flight and lost credits of a registered server add up to exactly 5 |
| `Cluster.SendInv` | A2-B/load-balancer/lb.c:199-213 | Sending a job moves one credit from the slot to the network |
| `Cluster.CompletionInv` | A2-B/load-balancer/lb.c:307-357 | A completion moves one credit from the network to the slot of its sender |
| `Cluster.RegistrationInv` | A2-B/load-balancer/lb.c:261-306 | A start ping is the only ping of an unregistered server; the count equals the number of servers heard |
| `Cluster.ServerStepOk` | A2-B/server/server.py:15-42 | Every step of a server keeps its account balanced |
| `ClusterRuns.NeverBusy` | A2-B/server/server.py:38-40 | In every run the busy test of a server fails for every job the balancer sent |
| `ClusterRuns.FreeThreadsExact` | A2-B/load-balancer/lb.c:189-316 | Without loss, the free threads of a server are exactly those that no job, handler or ping occupies |
| `ClusterRuns.JobConservation` | A2-B/load-balancer/lb.c:312-400 | In every run the accepted jobs are those transmitted, queued, or cut off by a packet that could not be lengthened |
| `ClusterRuns.DropsExactly` | A2-B/load-balancer/lb.c:177-180 | A job is dropped if and only if 100 are queued and no server has a free thread |
| `ClusterRuns.NoOvertaking` | A2-B/load-balancer/lb.c:312-400 | If servers register only while the queue is empty and packets can be lengthened, the accepted jobs in order are those transmitted followed by the queue, and no thread idles while jobs wait |
| `ClusterRuns.CompletionFindsServer` | A2-B/load-balancer/lb.c:318-327 | The unavailable exit after a completion is never taken |
| `ServerProcess.Process.OnDatagram` | A2-B/server/server.py:36-42 | A handler is started exactly unless five are counted or the datagram is empty; the variable holds the datagram in any case |
| `ServerSteps.RunAccounted` | A2-B/server/server.py:15-42 | In every run, whatever arrives and however handlers interleave, the number of threads is that of the handlers at work, and the total that of the handlers that have slept |
| `ServerSteps.TotalIsExact` | A2-B/server/server.py:15-42 | In every run, once no handler is at work, the total is the sum over all accepted datagrams plus the drift, so it is exact if and only if the drift is zero; the order in which handlers finish does not matter |
| `ServerSteps.DriftsExactly` | A2-B/server/server.py:36-42 | A datagram leaves the drift as it is if and only if every handler has read its own datagram, or the new datagram is the same number as the last one |
| `ServerSteps.PromptHasNoDrift` | A2-B/server/server.py:36-42 | If every handler reads its datagram before the next one is received, there is no drift |
| `ServerSteps.SecondCountsTwice` | A2-B/server/server.py:36-42 | A run with a drift: of two datagrams in a row both handlers read the second |
| `ServerSteps.LimitExactly` | A2-B/server/server.py:36-42 | Whatever the handlers do from a state on, never more than five threads count, if and only if no more than five count, are about to, or have yet to read their datagram |
| `ServerSteps.AcceptingIsSafe` | A2-B/server/server.py:38-42 | Accepting a datagram keeps that so if and only if there were fewer than five such handlers before; the test of the counter is not enough |
| `ServerSteps.RunKeepsLimit` | A2-B/server/server.py:36-42 | A run keeps the limit at all times, however its handlers go on from any point, if and only if every datagram was accepted while there were fewer than five such handlers |
| `ServerSteps.LimitExceeded` | A2-B/server/server.py:36-42 | Runs that exceed it: any number of datagrams in a row can all start handlers that then count |
| `BigEndian.OneByte` | A2-B/server/server.py:21 | A datagram of one byte is that number |
| `BigEndian.InFront` | A2-B/server/server.py:21 | Bytes in front count for as many powers of 256 as there are bytes behind them |
| `BigEndian.FirstDifference` | A2-B/server/server.py:21 | Datagrams of one length are ordered by the first byte in which they differ |
| `ServerSite.ThreadsFit` | A2-B/server/server.py:36-42 | In every run of servers behind the balancer no server counts more than five threads, now or whatever its handlers do next; every job that reaches a server starts a handler, and accepting it is safe |
| `ServerSite.SiteSafety` | A2-B/server/server.py:15-42 | The handlers of the program are those of the cluster model in every run |

## Left out

- Dedup.Deduplicate: string deduplication and the string set, the remapping of `.BTF.ext`, split BTF on a base BTF and `hypot_adjust_canon` beyond its initial value; names are opaque numbers and the unused bits of the info word are not represented.
- Dedup.Deduplicate: with FWD resolution on, types under a name that is declared somewhere and has two different definitions keep that name and no more; a comment in the code says that resolution may then be wrong (A2-A/server/libbpf/src/btf.c:3768-3774), and a definition to which a declaration was resolved may be sent to another one without a comparison (A2-A/server/libbpf/src/btf.c:4040-4052). Outside inputs made of units of distinct types, nothing is claimed about whether structs that mean the same become one, and a declaration that no comparison meets stays one.
- Resolution.ResolvedMeaningKept: one way only, since an input with two definitions of a declared name may come out right, depending on the order in which declarations are met.
- Dedup.Dedup.TryCandidate: the lists of the hypothetical map and of types grow without allocation failure, and so does the table; a bucket array beyond 2^60 fails, but 2^31 ids never need one.
- Hashmap.Hashmap.Insert: bucket chains are sequences, not linked nodes; the order of entries under one key is not specified, since growth reverses it (A2-A/server/libbpf/src/hashmap.c:117-120).
- BtfFile.BtfImage.Parse: images whose sections pass the check although they lie outside, since what the code reads there is not part of the image; and the cached raw data.
- BtfFile.BtfImage.GetRawData: native headers that say they are shorter than 24 bytes.
- Dumper.Dumper.OrderType: failure to grow the queue, and the emission of C text that follows.
- DumpRuns.CallEnds: for graphs in which a prototype can be visited other than through a pointer, which strong cycles are missed depends on the order of members, parameters and earlier calls; it is said what they pass through, not which they are.
- DumpRuns.QueuedOnce: one way only, for the same reason; `DumpOrder.TypedefReturns` says of every typedef that is queued twice how it leads to itself.
- Linker.Linker.RelocateCalls: data relocations, the `.BTF.ext` line information, and wrap-around of `size_t` beyond sections of 2^32 bytes.
- LinkMeaning.ImageSimulates: instructions other than calls and function-address loads act as an arbitrary function of the data; a run of the separate functions that leaves a function other than by return is not followed.
- RingReader.RingReader.Read: the callback depends on the record alone; masking with size - 1 is the remainder, for sizes that are powers of two; failure to allocate the copy buffer and memory barriers.
- LoadBalancer.Balancer.SendToBackend: the UDP checksum, which the code adds up in 16 bits and thereby loses carries, is a parameter of which nothing is claimed.
- LoadBalancer.Balancer.Handle: concurrent execution on several CPUs, tracing output, and IP header lengths other than 20 bytes.
- Cluster.CreditSafety: which payload a handler works on; `ServerSteps` has that, for each server.
- ELF parsing, loading into the kernel, maps, attachment, netlink, CO-RE, typed data dumping and code generation, which would add members that need the kernel or easy ones.
- The odd/even packet dropper of the first part and the clients, which have one branch each.
