# boogie-proofgen bookkeeping, modelled in Dafny

The proof generator turns a Boogie procedure into Isabelle theories. The proofs themselves are checked by
Isabelle. This project models the bookkeeping the generator does around them: which lemma is called what,
which table it lands in, in which order the declarations are emitted, and when generation fails.

The model has one module per core source file:

- **CfgToDagHintManager** (`cfg_to_dag_hint_manager.dfy`): the loop-hint tracker of the CFG-to-DAG phase.
  - A class holds the five dictionaries of the source as `map` fields, plus the identity maps between the
    original, before-DAG and after-DAG graphs.
  - The constructor fills the back-edge table with the nested loops of the source.
  - The queries are functions that read the fields and return `Result`/`Option`.
- **MembershipLemmaManager** (`membership_lemma_manager.dfy`): the membership-lemma catalog of one theory.
  - It is a class with an optional parent scope. A ghost depth makes delegation along the parent chain
    terminate.
  - Its three lemma tables are insertion-ordered tables (module `Tables`). A second `Add` of the same
    declaration fails, as a .NET `Dictionary` does.
  - The helper lemmas are fixed at construction.
- **IsaUniqueNamer** (`isa_unique_namer.dfy`): the name sanitiser. It covers the reserved-name rewrite of
  `A`, the `isa` prefix for names that do not start with a letter, and the replacement of `@ # ^ * ! &` by
  the spacer.
  - The Boogie namer behind it is a parameter, `resolve`. It is applied to the spacer, the requests made so
    far and the new request.
  - The class records the requests in a `seq` field.
- **EndToEndVCProof** (`end_to_end_vc_proof.dfy`): the end-to-end theory.
  - It builds the VC function definitions, the correspondence lemmas, the `ctor` function and its lemmas,
    and the `endToEnd` lemma with its proof script.
  - It works over the term datatypes of `IsaAst`. Everything the generator obtains from collaborators is a
    field of the record `Generator`: term builders, translations and extractors. The fields are
    uninterpreted, so every property holds for every choice.
  - The loops that build lists and `StringBuilder` text are methods proved equal to reference functions.
- **ProofGenerationLayer** (`proof_generation_layer.dfy`): the pipeline helpers.
  - The two queue-driven graph walks, over a control-flow graph whose blocks carry a rank that decreases
    along edges.
  - The passive-to-original variable mapping, as a class owning the `passiveToOrigVar` table.
  - The per-block VC lemmas, the adjusted lemmas of blocks removed by the peephole pass, and the lemma
    naming.
- **IsaVisitor** (`isa_visitor.dfy`): dispatch of terms, types and declarations to one handler per variant,
  and the list visitors.
- **Util** (`util.dfy`): the dictionary-of-lists `Add` and `AddEquation`.

Shared support modules:

- `Wrappers`: `Option`, `Result`, `Outcome` and the faults the source throws.
- `Tables`: the insertion-ordered dictionary.
- `Seqs`: `Map`, `FlatMap` and filtered positions.
- `Strings`: decimal rendering of indices.
- `IsaAst` and `BoogieAst`: the term, type and declaration datatypes.
- `Foreign`: the uninterpreted text and term builders.

Exceptions the source throws become `Err`/`Fail` values that carry the kind of exception:

- `KeyNotFound` for a missing dictionary key;
- `DuplicateKey` for a second `Add`;
- `NullReference` for a field that was never assigned;
- `UnexpectedState(message)` for `ProofGenUnexpectedStateException`;
- `NotImplemented`.

## Model

| member | source | states |
|---|---|---|
| CfgToDagHintManager.Inverse | Source/ProofGeneration/CfgToDag/CfgToDagHintManager.cs:28-29 | The inverse of the injective before-DAG-to-original map has the original blocks as keys and sends each back to the block it came from |
| CfgToDagHintManager.InverseInverse | Source/ProofGeneration/CfgToDag/CfgToDagHintManager.cs:28-29 | The inverse is injective and inverting it again gives the original map back |
| CfgToDagHintManager.RecordStep | Source/ProofGeneration/CfgToDag/CfgToDagHintManager.cs:33-36 | One loop iteration (append the head to a present list, else store a fresh one-element list) equals adding the pair with the intended dictionary-of-lists `Add` |
| CfgToDagHintManager.BuildBackedgeTable | Source/ProofGeneration/CfgToDag/CfgToDagHintManager.cs:31-36 | The nested loops build the table obtained by adding the translated (back-edge node, header) pairs, header by header and node by node |
| CfgToDagHintManager.BackedgePairsMembers | Source/ProofGeneration/CfgToDag/CfgToDagHintManager.cs:31-32 | The enumerated pairs are exactly the translated back-edge node and translated header of each loop |
| CfgToDagHintManager.BackedgeTableExact | Source/ProofGeneration/CfgToDag/CfgToDagHintManager.cs:31-36 | A head is listed under a node iff the node translates a back-edge source of a loop whose header translates to that head; a node closing several loops accumulates all their heads |
| CfgToDagHintManager.CfgToDagHintManager.constructor | Source/ProofGeneration/CfgToDag/CfgToDagHintManager.cs:26-37 | Stores the graph and map, builds the back-edge table, starts with empty hint and new-block tables and no after-DAG map |
| CfgToDagHintManager.CfgToDagHintManager.SetAfterDagToOrig | Source/ProofGeneration/CfgToDag/CfgToDagHintManager.cs:39-42 | The setter stores the after-DAG-to-original map and changes no table |
| CfgToDagHintManager.CfgToDagHintManager.TryIsBackedgeNode | Source/ProofGeneration/CfgToDag/CfgToDagHintManager.cs:44-47 | Succeeds exactly when the block closes some back edge, and then lists exactly the loop heads it closes |
| CfgToDagHintManager.CfgToDagHintManager.AddHint | Source/ProofGeneration/CfgToDag/CfgToDagHintManager.cs:49-52 | Succeeds iff the loop head has no hint yet (otherwise DuplicateKey and nothing changes); only the hint table changes; afterwards `IsLoopHead` of every block mapping to that head reports the hint |
| CfgToDagHintManager.CfgToDagHintManager.AddNewBackedgeBlock | Source/ProofGeneration/CfgToDag/CfgToDagHintManager.cs:54-59 | Succeeds iff the block is not yet registered (otherwise DuplicateKey and nothing changes); only its table changes |
| CfgToDagHintManager.CfgToDagHintManager.AddNewPreLoopEntryBlock | Source/ProofGeneration/CfgToDag/CfgToDagHintManager.cs:61-66 | Succeeds iff the block is not yet registered (otherwise DuplicateKey and nothing changes); only its table changes |
| CfgToDagHintManager.CfgToDagHintManager.IsNewBackedgeBlock | Source/ProofGeneration/CfgToDag/CfgToDagHintManager.cs:73-90 | Fails with a null reference while no after-DAG map is set, and with KeyNotFound for a block the map lacks. An unregistered block gives "no". A registered block whose head has a hint gives exactly the before-DAG head and that hint. A registered block whose head has no hint is an unexpected state, and a head without a before-DAG block is KeyNotFound. The answer is read from the current hints, so a hint added later is seen |
| CfgToDagHintManager.CfgToDagHintManager.IsNewBackedgeBlockHint | Source/ProofGeneration/CfgToDag/CfgToDagHintManager.cs:68-71 | The two-output overload fails, answers and reports the hint exactly as the three-output one |
| CfgToDagHintManager.CfgToDagHintManager.IsNewPreLoopEntryBlock | Source/ProofGeneration/CfgToDag/CfgToDagHintManager.cs:92-95 | Membership of the block's original in the pre-loop table; fails when the after-DAG map is unset or lacks the block |
| CfgToDagHintManager.CfgToDagHintManager.IsLoopHead | Source/ProofGeneration/CfgToDag/CfgToDagHintManager.cs:97-100 | Reports a hint exactly when one is recorded for the block's original, and returns that hint |
| CfgToDagHintManager.CfgToDagHintManager.GetLoopHead | Source/ProofGeneration/CfgToDag/CfgToDagHintManager.cs:102-105 | Succeeds exactly when the block's original has a hint; a missing one is KeyNotFound |
| CfgToDagHintManager.GetLoopHeadAgreesWithIsLoopHead | Source/ProofGeneration/CfgToDag/CfgToDagHintManager.cs:97-105 | `GetLoopHead` succeeds exactly when `IsLoopHead` reports a hint, and returns the same hint |
| CfgToDagHintManager.NewBackedgeHeadIsLoopHead | Source/ProofGeneration/CfgToDag/CfgToDagHintManager.cs:73-82 | The before-DAG head reported for a new back-edge block maps back to the registered loop head, and `IsLoopHead` of it reports the same hint |
| MembershipLemmaManager.QualifyInjective | Source/ProofGeneration/BoogieIsaInterface/MembershipLemmaManager.cs:201-204 | A qualified reference `theory.lemma` determines both theory and lemma when theory names contain no dot |
| MembershipLemmaManager.AxiomMembershipName | Source/ProofGeneration/BoogieIsaInterface/MembershipLemmaManager.cs:422-425 | The lemma of the i-th axiom is named with prefix `ma_` |
| MembershipLemmaManager.AxiomMembershipNamesDistinct | Source/ProofGeneration/BoogieIsaInterface/MembershipLemmaManager.cs:422-425 | Axioms at different positions get different lemma names |
| MembershipLemmaManager.NameFamiliesDisjoint | Source/ProofGeneration/BoogieIsaInterface/MembershipLemmaManager.cs:404-425 | The `mfun_`, `m_`, `mconst_` and `ma_` families never share a name, whatever the namer returns |
| MembershipLemmaManager.MembershipStatement | Source/ProofGeneration/BoogieIsaInterface/MembershipLemmaManager.cs:339-344 | The statement is an equation whose left side applies `map_of` (or `nth`) to the source list and the id |
| MembershipLemmaManager.MinOrMaxLemmas | Source/ProofGeneration/BoogieIsaInterface/MembershipLemmaManager.cs:444-483 | Two lemmas, `globals_max_aux`/`globals_max` (or `locals_min_aux`/`locals_min`), the first proved by unfolding the two lists, the second from the first with `helper_max`/`helper_min` |
| MembershipLemmaManager.DisjointnessProof | Source/ProofGeneration/BoogieIsaInterface/MembershipLemmaManager.cs:503-520 | Equal bounds: unfold constants and globals. Otherwise cite `locals_min` and `globals_max`, and fail exactly when no `globals_max` is available |
| MembershipLemmaManager.WfLemma | Source/ProofGeneration/BoogieIsaInterface/MembershipLemmaManager.cs:538-554 | The well-typedness lemma has the given name and is proved by unfolding the list definition |
| MembershipLemmaManager.TypingHelperLemmas | Source/ProofGeneration/BoogieIsaInterface/MembershipLemmaManager.cs:536-595 | Six lemmas; the variable-context lemma is proved from the four list lemmas before it |
| MembershipLemmaManager.HelperLemmaNames | Source/ProofGeneration/BoogieIsaInterface/MembershipLemmaManager.cs:101-105 | The helper lemmas are `globals_max` (with its auxiliary) exactly when globals are generated, `locals_min` and `globals_locals_disj` always, and the typing lemmas exactly when functions are generated |
| MembershipLemmaManager.HelperLemmasFailOnlyForMissingMax | Source/ProofGeneration/BoogieIsaInterface/MembershipLemmaManager.cs:486-523 | Building the helper lemmas fails exactly when the bounds differ and no scope provides `globals_max` |
| MembershipLemmaManager.BoundsSeparate | Source/ProofGeneration/BoogieIsaInterface/MembershipLemmaManager.cs:513-519 | Ids at most `globalsMax` and ids at least a larger `localsMin` are disjoint: the cited bound lemmas suffice |
| MembershipLemmaManager.EqualBoundsDoNotSeparate | Source/ProofGeneration/BoogieIsaInterface/MembershipLemmaManager.cs:504-511 | For every pair of id sets under equal bounds, the sets meet at most in the bound, and they are disjoint exactly when the bound is not in both; so the bound lemmas alone cannot prove disjointness, which is why that case unfolds the definitions instead |
| MembershipLemmaManager.IdOfVar | Source/ProofGeneration/BoogieIsaInterface/MembershipLemmaManager.cs:267-280 | A variable's id is its translation when it translates to a non-bound variable; otherwise "Could not retrieve variable id" |
| MembershipLemmaManager.MembershipLemmaManager.constructor | Source/ProofGeneration/BoogieIsaInterface/MembershipLemmaManager.cs:63-106 | The four list names are this theory's or the parent's per configuration, the definitions lists are as in the source, the helper lemmas are those of `HelperLemmas`, and the tables start empty |
| MembershipLemmaManager.MembershipLemmaManager.GlobalsAtMostMax | Source/ProofGeneration/BoogieIsaInterface/MembershipLemmaManager.cs:432-437 | This theory's `globals_max` when it generates globals; otherwise the answer is `globals_max` of a scope on the chain that generates globals. That it is the nearest one, and that the answer is a null reference exactly when no scope generates globals, is `LookupNearestScope`, `LookupNoScope` and `LookupCharacterized` for `GlobalsMaxRef` |
| MembershipLemmaManager.MembershipLemmaManager.GatedDeclName | Source/ProofGeneration/BoogieIsaInterface/MembershipLemmaManager.cs:113-159 | Functions, axioms, pre- and postconditions are named in this theory when it generates them. Otherwise the name is that of a scope on the chain that generates them, and the only failure is a null reference. That it is the nearest such scope, and that the failure happens exactly when none generates them, is `LookupNearestScope`, `LookupNoScope` and `LookupCharacterized` for `GatedName` |
| MembershipLemmaManager.MembershipLemmaManager.MembershipLemma | Source/ProofGeneration/BoogieIsaInterface/MembershipLemmaManager.cs:205-219 | A registered variable gives its local lemma. A function or axiom gives the local entry when the theory generates those, and a missing one is KeyNotFound. Everything else is delegated, and every answer is a registered lemma of some scope on the chain. Which scope answers is stated by `LookupNearestScope`, `LookupNoScope` and `LookupCharacterized` for `MembershipOf` |
| MembershipLemmaManager.MembershipLemmaManager.ConstantMembershipLemma | Source/ProofGeneration/BoogieIsaInterface/MembershipLemmaManager.cs:221-227 | A registered constant gives its local lemma, anything else is delegated; every answer is registered on the chain. Completeness and the nearest registration are stated by `LookupNearestScope`, `LookupNoScope` and `LookupCharacterized` for `ConstantOf` |
| MembershipLemmaManager.MembershipLemmaManager.LookupVarTyLemma | Source/ProofGeneration/BoogieIsaInterface/MembershipLemmaManager.cs:234-240 | A registered variable gives its local lemma, anything else is delegated; every answer is registered on the chain. Completeness and the nearest registration are stated by `LookupNearestScope`, `LookupNoScope` and `LookupCharacterized` for `LookupVarTyOf` |
| MembershipLemmaManager.MembershipLemmaManager.LocalAnswer | Source/ProofGeneration/BoogieIsaInterface/MembershipLemmaManager.cs:113-240 | What a scope answers from its own tables and configuration: the qualified lemma or definition, and only KeyNotFound as a failure |
| MembershipLemmaManager.LookupNearestScope | Source/ProofGeneration/BoogieIsaInterface/MembershipLemmaManager.cs:113-240 | For every accessor that delegates to the parent: the first scope on the chain that answers the question itself decides the result with its own entry, whatever scopes further up have registered |
| MembershipLemmaManager.LookupNoScope | Source/ProofGeneration/BoogieIsaInterface/MembershipLemmaManager.cs:113-240 | When no scope on the chain answers the question, the result is a null reference, from the root's missing parent |
| MembershipLemmaManager.LookupCharacterized | Source/ProofGeneration/BoogieIsaInterface/MembershipLemmaManager.cs:113-240 | Both directions: the result is a null reference exactly when no scope on the chain answers, and it succeeds exactly when the nearest scope that answers has the entry |
| MembershipLemmaManager.MembershipLemmaManager.OuterDecls | Source/ProofGeneration/BoogieIsaInterface/MembershipLemmaManager.cs:242-250 | One declaration per helper lemma and per entry of the three tables |
| MembershipLemmaManager.OuterDeclsBlocks | Source/ProofGeneration/BoogieIsaInterface/MembershipLemmaManager.cs:242-250 | The catalog is the helper lemmas, then the constant table's lemmas, then the membership table's, then the lookup-type table's, each block in insertion order |
| MembershipLemmaManager.OuterDeclsEmitsEveryLemma | Source/ProofGeneration/BoogieIsaInterface/MembershipLemmaManager.cs:242-250 | The helper lemmas come first, then every constant lemma, then every membership lemma, then every lookup-type lemma, each in its own block |
| MembershipLemmaManager.MembershipLemmaManager.MembershipName | Source/ProofGeneration/BoogieIsaInterface/MembershipLemmaManager.cs:404-414 | The name is `mfun_` for a function and `m_` otherwise, followed by the namer's answer to the declaration's name; exactly that request is added to the namer |
| MembershipLemmaManager.MembershipLemmaManager.ConstantMembershipName | Source/ProofGeneration/BoogieIsaInterface/MembershipLemmaManager.cs:416-420 | The name is `mconst_` followed by the namer's answer to the declaration's name; exactly that request is added to the namer |
| MembershipLemmaManager.MembershipLemmaManager.MembershipLemmaOf | Source/ProofGeneration/BoogieIsaInterface/MembershipLemmaManager.cs:337-359 | The lemma states membership of the declaration in the source list. Its proof simplifies with the definitions; when there are none it cites `mconst_` plus the namer's first answer for the declaration, and the lemma is named from the namer's second answer. The namer receives exactly those requests, and none when the method fails, which happens only for an untranslatable variable |
| MembershipLemmaManager.MembershipLemmaManager.MembershipProof | Source/ProofGeneration/BoogieIsaInterface/MembershipLemmaManager.cs:345-349 | The proof simplifies with the definitions without asking the namer, or, without definitions, cites `mconst_` plus the namer's answer for the declaration |
| MembershipLemmaManager.MembershipLemmaManager.TableLemmaName | Source/ProofGeneration/BoogieIsaInterface/MembershipLemmaManager.cs:351-358 | The constant table's lemmas are named by `ConstantMembershipName`, the membership table's by `MembershipName`: the prefix, then the namer's answer |
| MembershipLemmaManager.MembershipLemmaManager.BuildMembershipLemmas | Source/ProofGeneration/BoogieIsaInterface/MembershipLemmaManager.cs:337-360 | Every declaration is added in order with such a lemma, earlier entries are kept, and a failure is a duplicate or an untranslatable variable |
| MembershipLemmaManager.MembershipLemmaManager.AddNamedDeclsMembershipLemmas | Source/ProofGeneration/BoogieIsaInterface/MembershipLemmaManager.cs:328-361 | The target table (constant or membership) is extended by every declaration in order and the other table is unchanged |
| MembershipLemmaManager.MembershipLemmaManager.LookupVarTyLemmaFor | Source/ProofGeneration/BoogieIsaInterface/MembershipLemmaManager.cs:369-380 | The lookup-type lemma of a variable states its type in the variable context and cites disjointness and its membership lemma. It is named by the namer's answer to `l_` plus the variable's name, and that is the only request added. It fails exactly when the variable has no id or its membership lemma is not found, and then the namer is not asked |
| MembershipLemmaManager.MembershipLemmaManager.BuildLookupVarTyLemmas | Source/ProofGeneration/BoogieIsaInterface/MembershipLemmaManager.cs:369-381 | Every variable is added in order with its lookup-type lemma, citing the membership lemma found for it |
| MembershipLemmaManager.MembershipLemmaManager.AddLookupVarTyLemmas | Source/ProofGeneration/BoogieIsaInterface/MembershipLemmaManager.cs:363-382 | The lookup-type table is extended by every variable in order |
| MembershipLemmaManager.MembershipLemmaManager.AddVariableMembershipLemmas | Source/ProofGeneration/BoogieIsaInterface/MembershipLemmaManager.cs:264-326 | Without local generation no membership lemma is added. With it, constants first get constant lemmas, then every variable gets a membership lemma in its kind's list. In every case the lookup-type lemmas come last and cite the lemmas found after that |
| MembershipLemmaManager.MembershipLemmaManager.AddFunctionMembershipLemmas | Source/ProofGeneration/BoogieIsaInterface/MembershipLemmaManager.cs:252-262 | Every function gets a lemma on the functions list, by name; when functions are generated here, `MembershipLemma` then resolves it locally |
| MembershipLemmaManager.MembershipLemmaManager.AxiomMembershipLemma | Source/ProofGeneration/BoogieIsaInterface/MembershipLemmaManager.cs:391-399 | The i-th axiom's lemma is named `ma_i`, states that the axiom is in the set of the axioms list, and is proved by its definition |
| MembershipLemmaManager.MembershipLemmaManager.BuildAxiomMembershipLemmas | Source/ProofGeneration/BoogieIsaInterface/MembershipLemmaManager.cs:392-401 | The axioms are added in order, counting from zero; a failure is a duplicate axiom |
| MembershipLemmaManager.MembershipLemmaManager.AddAxiomMembershipLemmas | Source/ProofGeneration/BoogieIsaInterface/MembershipLemmaManager.cs:389-402 | The membership table is extended by every axiom in order |
| MembershipLemmaManager.HelperReferencesResolve | Source/ProofGeneration/BoogieIsaInterface/MembershipLemmaManager.cs:427-442 | The helper names handed out exist: `locals_min` and `globals_locals_disj` always, typing lemmas iff functions are generated, and `globals_max` in the scope it is taken from |
| MembershipLemmaManager.GlobalsMaxNamed | Source/ProofGeneration/BoogieIsaInterface/MembershipLemmaManager.cs:491-496 | `globals_max` is expected iff globals are generated; `locals_min` and disjointness always |
| MembershipLemmaManager.GlobalsMaxResolves | Source/ProofGeneration/BoogieIsaInterface/MembershipLemmaManager.cs:432-437 | The `globals_max` reference names a helper lemma of a scope on the chain that has one |
| IsaUniqueNamer.ReservedRewrite | Source/ProofGeneration/Util/IsaUniqueNamer.cs:26-37 | `A` becomes `AZZ`, every other name is kept, and the result is never reserved |
| IsaUniqueNamer.ReplaceIllegalAppend | Source/ProofGeneration/Util/IsaUniqueNamer.cs:65-67 | Replacement works character by character: it distributes over concatenation |
| IsaUniqueNamer.ReplaceIllegalKeepsLegal | Source/ProofGeneration/Util/IsaUniqueNamer.cs:65-67 | A string without illegal characters is unchanged |
| IsaUniqueNamer.ReplaceIllegalRemovesAll | Source/ProofGeneration/Util/IsaUniqueNamer.cs:65-67 | With a legal spacer without `$` no illegal character remains |
| IsaUniqueNamer.ReplaceIllegalPointwise | Source/ProofGeneration/Util/IsaUniqueNamer.cs:65-67 | With a one-character spacer, each illegal character becomes the spacer and every other character stays in place |
| IsaUniqueNamer.ValidIsaStringStartsWithLetter | Source/ProofGeneration/Util/IsaUniqueNamer.cs:58-63 | The sanitised name always starts with an ASCII letter |
| IsaUniqueNamer.ValidIsaStringIsLegal | Source/ProofGeneration/Util/IsaUniqueNamer.cs:56-68 | The sanitised name has no illegal character when the spacer has none and no `$` |
| IsaUniqueNamer.ValidIsaStringPrefix | Source/ProofGeneration/Util/IsaUniqueNamer.cs:58-63 | A name not starting with a letter, the empty one included, gets `isa` and the spacer in front |
| IsaUniqueNamer.DefaultSpacerShape | Source/ProofGeneration/Util/IsaUniqueNamer.cs:29 | With the default spacer `_`, a name starting with a letter keeps its length, any other gets `isa_` in front, and the empty name becomes `isa_` |
| IsaUniqueNamer.ValidIsaStringIdempotent | Source/ProofGeneration/Util/IsaUniqueNamer.cs:56-68 | Sanitising twice gives the same as once, for every legal spacer without `$` |
| IsaUniqueNamer.DefaultSpacerIsLegal | Source/ProofGeneration/Util/IsaUniqueNamer.cs:29 | The default spacer has no illegal character and no `$` |
| IsaUniqueNamer.CandidateIsLegal | Source/ProofGeneration/Util/IsaUniqueNamer.cs:31-44 | The candidates of `GetName` and `GetLocalName` start with a letter, and are legal when the spacer is legal and has no `$` |
| IsaUniqueNamer.IsaUniqueNamer.constructor | Source/ProofGeneration/Util/IsaUniqueNamer.cs:18-27 | Stores the spacer and the backing namer, with no request made yet |
| IsaUniqueNamer.IsaUniqueNamer.WithDefaultSpacer | Source/ProofGeneration/Util/IsaUniqueNamer.cs:29 | The parameterless constructor uses spacer `_` |
| IsaUniqueNamer.IsaUniqueNamer.GetName | Source/ProofGeneration/Util/IsaUniqueNamer.cs:31-39 | Hands the backing namer the reserved-rewritten, sanitised name as a global request and returns its answer; every candidate so far stays legal when the spacer is legal and has no `$` |
| IsaUniqueNamer.IsaUniqueNamer.GetLocalName | Source/ProofGeneration/Util/IsaUniqueNamer.cs:41-44 | Hands the backing namer the sanitised name, without the reserved rewrite, as a local request and returns its answer |
| IsaUniqueNamer.IsaUniqueNamer.PushScope | Source/ProofGeneration/Util/IsaUniqueNamer.cs:46-49 | Records a scope push with the backing namer |
| IsaUniqueNamer.IsaUniqueNamer.PopScope | Source/ProofGeneration/Util/IsaUniqueNamer.cs:51-54 | Records a scope pop with the backing namer |
| EndToEndVCProof.VCFunName | Source/ProofGeneration/ProgramToVCProof/EndToEndVCProof.cs:212-215 | `vc_fun_` followed by the function name |
| EndToEndVCProof.FunCorresName | Source/ProofGeneration/ProgramToVCProof/EndToEndVCProof.cs:801-804 | `vc_<f>_corres`, and three characters longer exactly for the ML binding |
| EndToEndVCProof.InterpMemName | Source/ProofGeneration/ProgramToVCProof/EndToEndVCProof.cs:791-794 | `im_<f>`, and three characters longer exactly for the ML binding |
| EndToEndVCProof.WfName | Source/ProofGeneration/ProgramToVCProof/EndToEndVCProof.cs:796-799 | `i_` followed by the function name |
| EndToEndVCProof.FunAbbrev | Source/ProofGeneration/ProgramToVCProof/EndToEndVCProof.cs:780-783 | `?` followed by the function name |
| EndToEndVCProof.StateCorresName | Source/ProofGeneration/ProgramToVCProof/EndToEndVCProof.cs:806-809 | `sc_` followed by the namer's name for the variable |
| EndToEndVCProof.CtorTypeLemmaName | Source/ProofGeneration/ProgramToVCProof/EndToEndVCProof.cs:475-478 | `ctor_` followed by the type's text |
| EndToEndVCProof.CtorDeclLemmaName | Source/ProofGeneration/ProgramToVCProof/EndToEndVCProof.cs:480-483 | `ctor_` followed by the constructor's name |
| EndToEndVCProof.CtorDeclLemmaNamesDistinct | Source/ProofGeneration/ProgramToVCProof/EndToEndVCProof.cs:480-483 | Differently named type constructors get different ctor lemmas |
| EndToEndVCProof.ConstructIfPrimitive | Source/ProofGeneration/ProgramToVCProof/EndToEndVCProof.cs:175-185 | Values of non-primitive type are passed unchanged |
| EndToEndVCProof.DestructIfPrimitive | Source/ProofGeneration/ProgramToVCProof/EndToEndVCProof.cs:202-205 | Values of non-primitive type are used unchanged |
| EndToEndVCProof.ParamTerms | Source/ProofGeneration/ProgramToVCProof/EndToEndVCProof.cs:123-131 | One identifier per value parameter, in order |
| EndToEndVCProof.BoogieValueParams | Source/ProofGeneration/ProgramToVCProof/EndToEndVCProof.cs:175-185 | The i-th Boogie argument is the i-th parameter, turned into a Boogie value when primitive |
| EndToEndVCProof.ClosedTypeTerm | Source/ProofGeneration/ProgramToVCProof/EndToEndVCProof.cs:143-164 | An explicit type parameter stands for itself (implicit ones use their extractor) |
| EndToEndVCProof.BoogieTyParams | Source/ProofGeneration/ProgramToVCProof/EndToEndVCProof.cs:162 | One Boogie type argument per type parameter |
| EndToEndVCProof.TypeSubst | Source/ProofGeneration/ProgramToVCProof/EndToEndVCProof.cs:163 | One substitution entry per type parameter |
| EndToEndVCProof.VcFunArgsOrder | Source/ProofGeneration/ProgramToVCProof/EndToEndVCProof.cs:119-167 | The left-hand side is `A`, the function, the explicit type parameters in declaration order, then all value parameters |
| EndToEndVCProof.VcFunBodyShape | Source/ProofGeneration/ProgramToVCProof/EndToEndVCProof.cs:187-207 | The body splits on the Boogie call: `Some res` gives `res`, `None` the default value of the output type, both destructed exactly when the output type is primitive |
| EndToEndVCProof.VCFunDefinition | Source/ProofGeneration/ProgramToVCProof/EndToEndVCProof.cs:113-210 | The method builds the single-equation definition named `vc_fun_<f>` that the two lemmas above describe |
| EndToEndVCProof.IndexedLabel | Source/ProofGeneration/ProgramToVCProof/EndToEndVCProof.cs:271-272 | The `closed` and `typeOfArg` labels are their prefix followed by a non-empty position |
| EndToEndVCProof.BoogieTypeParamTerms | Source/ProofGeneration/ProgramToVCProof/EndToEndVCProof.cs:254 | One identifier per type parameter, in order |
| EndToEndVCProof.CorresTypeSubst | Source/ProofGeneration/ProgramToVCProof/EndToEndVCProof.cs:290-298 | One substitution entry per type parameter |
| EndToEndVCProof.TypeOfArgAssms | Source/ProofGeneration/ProgramToVCProof/EndToEndVCProof.cs:301-319 | One typing assumption per non-primitive value parameter |
| EndToEndVCProof.TypeOfArgLabels | Source/ProofGeneration/ProgramToVCProof/EndToEndVCProof.cs:301-319 | One label per non-primitive value parameter |
| EndToEndVCProof.ClosedLabels | Source/ProofGeneration/ProgramToVCProof/EndToEndVCProof.cs:279-287 | `closed0` to `closed(k-1)`, in order |
| EndToEndVCProof.ClosedAssms | Source/ProofGeneration/ProgramToVCProof/EndToEndVCProof.cs:279-287 | One closedness assumption per type parameter |
| EndToEndVCProof.CorresAssumptions | Source/ProofGeneration/ProgramToVCProof/EndToEndVCProof.cs:269-319 | As many assumptions as labels |
| EndToEndVCProof.ExtractorLine | Source/ProofGeneration/ProgramToVCProof/EndToEndVCProof.cs:377-386 | The extractor fact of type parameter 0 starts with `from`, later ones with `moreover from` |
| EndToEndVCProof.ExtractorLines | Source/ProofGeneration/ProgramToVCProof/EndToEndVCProof.cs:361-395 | One extractor fact per implicit type parameter |
| EndToEndVCProof.ShowLine | Source/ProofGeneration/ProgramToVCProof/EndToEndVCProof.cs:399-402 | `ultimately` after more than one extractor fact, `from this` otherwise |
| EndToEndVCProof.CorresProofOpening | Source/ProofGeneration/ProgramToVCProof/EndToEndVCProof.cs:341-353 | Seven fixed lines starting with `proof -` |
| EndToEndVCProof.CorresProof | Source/ProofGeneration/ProgramToVCProof/EndToEndVCProof.cs:339-403 | The proof has nine lines plus one per implicit type parameter, from `proof -` to `by (simp add: W) qed` |
| EndToEndVCProof.CorresLabelAt | Source/ProofGeneration/ProgramToVCProof/EndToEndVCProof.cs:269-319 | Position 0 is `FInterp`, positions 1..k the `closed` labels, later positions `typeOfArg` labels |
| EndToEndVCProof.TypeOfArgLabelListed | Source/ProofGeneration/ProgramToVCProof/EndToEndVCProof.cs:304-316 | Every non-primitive value parameter has its `typeOfArg` label |
| EndToEndVCProof.TypeOfArgLabelNonPrimitive | Source/ProofGeneration/ProgramToVCProof/EndToEndVCProof.cs:304-316 | Only non-primitive value parameters have one |
| EndToEndVCProof.CorresLabelsOrder | Source/ProofGeneration/ProgramToVCProof/EndToEndVCProof.cs:269-319 | The labels are `FInterp`, `closed0`..`closed(k-1)`, then `typeOfArg<i>` for exactly the non-primitive parameters, in increasing order |
| EndToEndVCProof.IndexedNamesDistinctConverse | Source/ProofGeneration/ProgramToVCProof/EndToEndVCProof.cs:271-272 | Labels made of one prefix and an index are equal only for equal indices |
| EndToEndVCProof.CorresLabelsDistinct | Source/ProofGeneration/ProgramToVCProof/EndToEndVCProof.cs:269-319 | No two assumptions of a correspondence lemma share a label |
| EndToEndVCProof.AppendClosedAssms | Source/ProofGeneration/ProgramToVCProof/EndToEndVCProof.cs:279-287 | The loop appends the closedness assumption of every type parameter to the assumptions and `closed0`..`closed(k-1)` to the labels, in order |
| EndToEndVCProof.AppendTypeOfArgAssms | Source/ProofGeneration/ProgramToVCProof/EndToEndVCProof.cs:301-319 | The loop appends a typing assumption and its `typeOfArg<i>` label for exactly the non-primitive value parameters, in order |
| EndToEndVCProof.ExtractorsOf | Source/ProofGeneration/ProgramToVCProof/EndToEndVCProof.cs:361-395 | The loop collects one extractor fact per implicit type parameter and the closedness facts of the explicit ones |
| EndToEndVCProof.FunCorres | Source/ProofGeneration/ProgramToVCProof/EndToEndVCProof.cs:222-409 | The method builds the correspondence lemma whose labels and proof the lemmas above describe |
| EndToEndVCProof.BasicTypeCtorLemma | Source/ProofGeneration/ProgramToVCProof/EndToEndVCProof.cs:492-498 | `ctor` of int or bool equals its value, by `simp`, named after the type |
| EndToEndVCProof.CtorArgNames | Source/ProofGeneration/ProgramToVCProof/EndToEndVCProof.cs:527 | `t1`..`tn`, pairwise different |
| EndToEndVCProof.DeclCtorLemma | Source/ProofGeneration/ProgramToVCProof/EndToEndVCProof.cs:523-537 | The type-constructor lemma is quantified exactly when the arity is positive and is proved from the ctor list |
| EndToEndVCProof.CtorContribution | Source/ProofGeneration/ProgramToVCProof/EndToEndVCProof.cs:500-539 | A basic-type ctor axiom off int and bool is not implemented; each ctor axiom adds one lemma; other axioms add nothing |
| EndToEndVCProof.CtorDecls | Source/ProofGeneration/ProgramToVCProof/EndToEndVCProof.cs:550-559 | The definition, the function, then the lemmas |
| EndToEndVCProof.CtorFunFails | Source/ProofGeneration/ProgramToVCProof/EndToEndVCProof.cs:500-520 | `ctorFun` fails, not implemented, exactly when some basic-type ctor axiom is on a type other than int and bool |
| EndToEndVCProof.CtorFunShape | Source/ProofGeneration/ProgramToVCProof/EndToEndVCProof.cs:541-559 | One lemma per ctor axiom in order, the `ctor_list` definition first, and the `TConC` catch-all as the last equation |
| EndToEndVCProof.CtorFun | Source/ProofGeneration/ProgramToVCProof/EndToEndVCProof.cs:485-560 | The loop computes the result described by the two lemmas above |
| EndToEndVCProof.CastLemmaName | Source/ProofGeneration/ProgramToVCProof/EndToEndVCProof.cs:723-745 | Cast lemmas are `bool_…` for bool and `int_…` for int |
| EndToEndVCProof.CastLemmaNamesDistinct | Source/ProofGeneration/ProgramToVCProof/EndToEndVCProof.cs:723-745 | The six cast lemmas are pairwise different |
| EndToEndVCProof.AxiomProofStep | Source/ProofGeneration/ProgramToVCProof/EndToEndVCProof.cs:685-746 | An unfolding line, then the kind's step. Fatal exactly for a Boogie axiom (not implemented), an untranslatable variable, or a cast off int and bool (unexpected state) |
| EndToEndVCProof.AxiomProofFails | Source/ProofGeneration/ProgramToVCProof/EndToEndVCProof.cs:683-748 | The axiom proof fails exactly when some VC axiom is of a fatal kind |
| EndToEndVCProof.AppendVcAxiomsProof | Source/ProofGeneration/ProgramToVCProof/EndToEndVCProof.cs:683-748 | Appends the steps of every axiom in order, or reports the first failure |
| EndToEndVCProof.AxiomProofFailsAt | Source/ProofGeneration/ProgramToVCProof/EndToEndVCProof.cs:685-746 | The first fatal axiom's fault is the proof's fault |
| EndToEndVCProof.VcDeclIds | Source/ProofGeneration/ProgramToVCProof/EndToEndVCProof.cs:416-428 | The bound ids are the variable ids, then one id per function |
| EndToEndVCProof.VcDeclTypes | Source/ProofGeneration/ProgramToVCProof/EndToEndVCProof.cs:421-435 | One type per bound id |
| EndToEndVCProof.PremisedSnoc | Source/ProofGeneration/ProgramToVCProof/EndToEndVCProof.cs:439-440 | One more premise nests inside the chain |
| EndToEndVCProof.AggregateChainsInOrder | Source/ProofGeneration/ProgramToVCProof/EndToEndVCProof.cs:439-440 | Folding over the reversed axioms chains them in their original order, first axiom outermost |
| EndToEndVCProof.VcAxiomTerms | Source/ProofGeneration/ProgramToVCProof/EndToEndVCProof.cs:439-440 | One instantiated term per VC axiom |
| EndToEndVCProof.FinalHypotheses | Source/ProofGeneration/ProgramToVCProof/EndToEndVCProof.cs:446-470 | Seven hypotheses, the VC first |
| EndToEndVCProof.VcAssmShape | Source/ProofGeneration/ProgramToVCProof/EndToEndVCProof.cs:418-444 | The VC hypothesis is the VC under the axioms as premises, closed over the variable ids then the function ids |
| EndToEndVCProof.EvaluationName | Source/ProofGeneration/ProgramToVCProof/EndToEndVCProof.cs:785-789 | A null reference while the numbering is unset; otherwise `ea_` and the axiom's number |
| EndToEndVCProof.AxiomIdsByPosition | Source/ProofGeneration/ProgramToVCProof/EndToEndVCProof.cs:785-789 | The corrected numbering numbers each axiom by its position |
| EndToEndVCProof.ProofHeader | Source/ProofGeneration/ProgramToVCProof/EndToEndVCProof.cs:565-571 | `proof -` and the variable-context abbreviation |
| EndToEndVCProof.FunInterpLines | Source/ProofGeneration/ProgramToVCProof/EndToEndVCProof.cs:574-599 | Four lines per function, the second stating `im_<f>` |
| EndToEndVCProof.StateCorresLines | Source/ProofGeneration/ProgramToVCProof/EndToEndVCProof.cs:753-777 | Five lines for a variable the translation knows, stating `sc_<v>`; none otherwise |
| EndToEndVCProof.AxiomEvalLines | Source/ProofGeneration/ProgramToVCProof/EndToEndVCProof.cs:606-613 | Two lines per axiom, failing exactly when its evaluation name does |
| EndToEndVCProof.FunTacticLines | Source/ProofGeneration/ProgramToVCProof/EndToEndVCProof.cs:642-652 | Three steps per function, simplifying with `im_<f>` first |
| EndToEndVCProof.VarTacticLines | Source/ProofGeneration/ProgramToVCProof/EndToEndVCProof.cs:654-661 | One step per variable that uses `sc_<v>` |
| EndToEndVCProof.ShowLines | Source/ProofGeneration/ProgramToVCProof/EndToEndVCProof.cs:634-640 | The four fixed lines of the conclusion |
| EndToEndVCProof.FinalProofLines | Source/ProofGeneration/ProgramToVCProof/EndToEndVCProof.cs:562-681 | The proof runs from `proof -` to `done`, `qed` |
| EndToEndVCProof.AxiomEvalsFail | Source/ProofGeneration/ProgramToVCProof/EndToEndVCProof.cs:606-613 | Without a numbering the first axiom fails with a null reference; with one covering all axioms the facts succeed |
| EndToEndVCProof.AxiomEvalsFirstFault | Source/ProofGeneration/ProgramToVCProof/EndToEndVCProof.cs:606-613 | The first unnamed axiom's fault is the result |
| EndToEndVCProof.AsWrittenFinalProofFails | Source/ProofGeneration/ProgramToVCProof/EndToEndVCProof.cs:785-789 | As written, the final proof fails with a null reference for every procedure with an axiom |
| EndToEndVCProof.CorrectedFinalProof | Source/ProofGeneration/ProgramToVCProof/EndToEndVCProof.cs:562-681 | With axioms numbered by position, the facts are `ea_0`, `ea_1`, … and the proof fails only on a fatal VC axiom |
| EndToEndVCProof.AppendStateCorres | Source/ProofGeneration/ProgramToVCProof/EndToEndVCProof.cs:750-779 | Appends the state-correspondence lines of each variable, in order |
| EndToEndVCProof.AppendFunInterps | Source/ProofGeneration/ProgramToVCProof/EndToEndVCProof.cs:574-599 | Appends the interpretation lines of each function, in order |
| EndToEndVCProof.AppendAxiomEvals | Source/ProofGeneration/ProgramToVCProof/EndToEndVCProof.cs:606-613 | Appends each axiom's evaluation fact in order, or reports the first failure |
| EndToEndVCProof.AppendFunTactics | Source/ProofGeneration/ProgramToVCProof/EndToEndVCProof.cs:642-652 | Appends each function's steps, in order |
| EndToEndVCProof.AppendVarTactics | Source/ProofGeneration/ProgramToVCProof/EndToEndVCProof.cs:654-661 | Appends each variable's step, in order |
| EndToEndVCProof.FinalProof | Source/ProofGeneration/ProgramToVCProof/EndToEndVCProof.cs:562-681 | The method builds the proof described by `FinalProofLines` |
| EndToEndVCProof.FinalLemmaShape | Source/ProofGeneration/ProgramToVCProof/EndToEndVCProof.cs:467-472 | `endToEnd` has the seven hypotheses VC, Closed, NonEmptyTypes, FInterp, Axioms, ParamsLocal, Red in this order, each with its label, and fails only when its proof does |
| EndToEndVCProof.FinalLabelsDistinct | Source/ProofGeneration/ProgramToVCProof/EndToEndVCProof.cs:469-471 | The seven labels are pairwise different |
| EndToEndVCProof.FinalLemma | Source/ProofGeneration/ProgramToVCProof/EndToEndVCProof.cs:411-473 | The method builds the lemma described by `FinalLemmaShape` |
| EndToEndVCProof.GenerateProof | Source/ProofGeneration/ProgramToVCProof/EndToEndVCProof.cs:93-105 | The method builds the theory described by `GenerateProofOrder` |
| EndToEndVCProof.VCFunDefinitionsOf | Source/ProofGeneration/ProgramToVCProof/EndToEndVCProof.cs:107-110 | One definition per function, in order |
| EndToEndVCProof.FunCorresLemmasOf | Source/ProofGeneration/ProgramToVCProof/EndToEndVCProof.cs:217-220 | One correspondence lemma per function, in order |
| EndToEndVCProof.GenerateProofOrder | Source/ProofGeneration/ProgramToVCProof/EndToEndVCProof.cs:93-105 | The definitions, then the correspondence lemmas, then the ctor declarations, then `One_nat_def[simp del]`, then `endToEnd` last |
| EndToEndVCProof.AsWrittenGenerateProofFails | Source/ProofGeneration/ProgramToVCProof/EndToEndVCProof.cs:785-789 | As written, a procedure with an axiom gets no theory |
| EndToEndVCProof.CorrectedGenerateProof | Source/ProofGeneration/ProgramToVCProof/EndToEndVCProof.cs:93-105 | With axioms numbered by position, the theory is produced unless some ctor or VC axiom is of an unsupported kind |
| ProofGenerationLayer.Weight | Source/ProofGeneration/ProofGenerationLayer.cs:268-285 | The walk measure of a block is positive |
| ProofGenerationLayer.ExpandLowersWeight | Source/ProofGeneration/ProofGenerationLayer.cs:268-285 | Replacing the queue head by its successors lowers the measure by one, so the walks end on an acyclic graph |
| ProofGenerationLayer.Frontier | Source/ProofGeneration/ProofGenerationLayer.cs:274-283 | Every first non-empty block has commands |
| ProofGenerationLayer.FirstNonEmptyIsFrontier | Source/ProofGeneration/ProofGenerationLayer.cs:268-285 | The queue walk finds exactly the first non-empty blocks after the queued ones |
| ProofGenerationLayer.NonEmptySuccessorsSpec | Source/ProofGeneration/ProofGenerationLayer.cs:260-289 | No successors gives nothing even for a non-empty block. A non-empty block with successors gives exactly itself. Otherwise the result is exactly the first non-empty blocks, all with commands |
| ProofGenerationLayer.FrontierLooksThrough | Source/ProofGeneration/ProofGenerationLayer.cs:278-283 | An empty block is looked through: the first non-empty blocks after each successor are among its own |
| ProofGenerationLayer.GetNonEmptySuccessors | Source/ProofGeneration/ProofGenerationLayer.cs:260-289 | The queue loop returns `NonEmptySuccessors` |
| ProofGenerationLayer.ReachableEmpty | Source/ProofGeneration/ProofGenerationLayer.cs:218-231 | Every reported block is empty and does not end in magic |
| ProofGenerationLayer.ReachableEmptyClosed | Source/ProofGeneration/ProofGenerationLayer.cs:221-230 | Everything reported from a successor of an expanded block is reported from the block |
| ProofGenerationLayer.ComputeReachableEmptyBlocks | Source/ProofGeneration/ProofGenerationLayer.cs:211-234 | The queue loop returns the empty blocks reachable from the entry without passing a magic block; all are empty and not magic |
| ProofGenerationLayer.GetLemmaName | Source/ProofGeneration/ProofGenerationLayer.cs:325-328 | `block_` followed by the label |
| ProofGenerationLayer.LemmaNamesDistinct | Source/ProofGeneration/ProofGenerationLayer.cs:325-328 | Different labels give different preferred names |
| ProofGenerationLayer.NextLemmaName | Source/ProofGeneration/ProofGenerationLayer.cs:252 | The n-th naming request in a loop gets the name resolved from the requests before it |
| ProofGenerationLayer.VcLemmaDecls | Source/ProofGeneration/ProofGenerationLayer.cs:243-252 | One or two declarations: the ML value `<label>_hints` first exactly when hints exist, then the block lemma, which gets the hints name exactly then |
| ProofGenerationLayer.GenerateVCLemmas | Source/ProofGeneration/ProofGenerationLayer.cs:236-258 | One entry per block, keyed in backward order, each holding the block's declarations with the name the namer gave it; one naming request per block |
| ProofGenerationLayer.AdjustedBlocks | Source/ProofGeneration/ProofGenerationLayer.cs:299-313 | Exactly the listed blocks absent after the peephole pass and empty, in order |
| ProofGenerationLayer.AdjustedBlocksDistinct | Source/ProofGeneration/ProofGenerationLayer.cs:299-313 | Listed once each, so no key is added twice |
| ProofGenerationLayer.GetAdjustedLemmas | Source/ProofGeneration/ProofGenerationLayer.cs:292-316 | One entry per adjusted block in order, holding the empty-block lemma with its first non-empty successors and its resolved name; one naming request per adjusted block |
| ProofGenerationLayer.AdjustedLemmaBlocks | Source/ProofGeneration/ProofGenerationLayer.cs:299-313 | A block gets an adjusted lemma iff it is in the graph before the peephole pass, not after it, and empty |
| ProofGenerationLayer.OrigName | Source/ProofGeneration/ProofGenerationLayer.cs:120-121 | The text before the first `@`, or all of it |
| ProofGenerationLayer.OrigNameOfIncarnation | Source/ProofGeneration/ProofGenerationLayer.cs:120-121 | `x@n` is mapped back to `x`, and `x` to itself |
| ProofGenerationLayer.NameToVarOk | Source/ProofGeneration/ProofGenerationLayer.cs:110-115 | A successful name table lists the names in order and maps each to its variable |
| ProofGenerationLayer.NameToVarFails | Source/ProofGeneration/ProofGenerationLayer.cs:112-115 | The name table fails, with a duplicate key, exactly when two variables share a name |
| ProofGenerationLayer.NameToVarKeys | Source/ProofGeneration/ProofGenerationLayer.cs:112-115 | The table maps exactly the variables' names |
| ProofGenerationLayer.MapStep | Source/ProofGeneration/ProofGenerationLayer.cs:120-127 | A missing original is the "Cannot predict mapping" failure; a variable already mapped is a duplicate; otherwise it is mapped to the original |
| ProofGenerationLayer.MapPassiveOk | Source/ProofGeneration/ProofGenerationLayer.cs:117-128 | A completed mapping keeps earlier entries and maps each passive variable, in order, to the variable named by its text before `@` |
| ProofGenerationLayer.MappableSnoc | Source/ProofGeneration/ProofGenerationLayer.cs:117-128 | A longer list is mappable iff its prefix is and the last variable has an original and is not yet mapped |
| ProofGenerationLayer.MapPassivePasses | Source/ProofGeneration/ProofGenerationLayer.cs:117-128 | Mapping completes exactly when every name leads to an original, no variable was mapped before, and none is listed twice |
| ProofGenerationLayer.NameToVarFailsAt | Source/ProofGeneration/ProofGenerationLayer.cs:112-115 | The first duplicate name stops the name table for good |
| ProofGenerationLayer.MapPassiveFailsAt | Source/ProofGeneration/ProofGenerationLayer.cs:117-128 | The first failing variable stops the mapping for good, with the map as before that variable |
| ProofGenerationLayer.PassiveVariableMap.constructor | Source/ProofGeneration/ProofGenerationLayer.cs:102-128 | The map starts empty |
| ProofGenerationLayer.PassiveVariableMap.AfterPassification | Source/ProofGeneration/ProofGenerationLayer.cs:102-128 | The new map and outcome are those of indexing the variables before passification by name and mapping each passive variable through it |
| IsaVisitor.KindOf | Source/ProofGeneration/Isa/IsaVisitor.cs:35-55 | Exactly the binary, quantifier, case and typed terms have no handler |
| IsaVisitor.Visit | Source/ProofGeneration/Isa/IsaVisitor.cs:20-23 | Answers exactly for the eleven handled variants, with the handler of the term's own variant |
| IsaVisitor.VisitDispatchesOnKind | Source/ProofGeneration/Isa/IsaVisitor.cs:20-23 | `Visit` calls the handler of the term's kind and no other |
| IsaVisitor.VisitList | Source/ProofGeneration/Isa/IsaVisitor.cs:25-33 | Same length as the input, element i is `Visit(list[i])`; fails iff some element has no handler |
| IsaVisitor.VisitType | Source/ProofGeneration/Isa/IsaVisitor.cs:60-63 | The four type variants go to their handlers; type variables have none |
| IsaVisitor.VisitTypeList | Source/ProofGeneration/Isa/IsaVisitor.cs:65-72 | Same length as the input, element i is `VisitType(list[i])` |
| IsaVisitor.VisitDecl | Source/ProofGeneration/Isa/IsaVisitor.cs:8-15 | Only function and definition declarations have a handler |
| Util.AddedAsWritten | Source/ProofGeneration/Util.cs:9-20 | As written: a present key gets the value appended, an absent key leaves the dictionary unchanged, and other keys never change |
| Util.Added | Source/ProofGeneration/Util.cs:9-20 | As intended: the value ends up last in the key's list, which is created when absent; other keys never change |
| Util.AddAllGroupsByKey | Source/ProofGeneration/Util.cs:9-20 | Adding pairs to an empty dictionary groups them by key, in order |
| Util.AddAllAsWrittenStaysEmpty | Source/ProofGeneration/Util.cs:14-19 | As written, an empty dictionary stays empty whatever is added |
| Util.AddAsWrittenLosesFirstValue | Source/ProofGeneration/Util.cs:14-19 | Adding 1 under a fresh key 0 records nothing, where the intended helper records `[1]` |
| Util.ListDictionary.Add | Source/ProofGeneration/Util.cs:9-20 | The dictionary becomes `AddedAsWritten` of the old one |
| Util.ListDictionary.AddCorrected | Source/ProofGeneration/Util.cs:9-20 | The dictionary becomes `Added` of the old one |
| Util.EquationList.AddEquation | Source/ProofGeneration/Util.cs:22-25 | Exactly one equation `([lhs], rhs)` is appended and earlier ones are kept |

## Left out

- IsaUniqueNamer.ReplaceIllegal: `Regex.Replace` expands `$` substitutions in the replacement (`$0` puts the matched character back), and the model inserts the spacer as literal text. The two agree only for spacers without `$`. Every namer the source creates uses `_`.
- ReplaceIllegalRemovesAll: requires a spacer without `$`, because with `$0` the source keeps the illegal character.
- ValidIsaStringIsLegal: requires a spacer without `$`, for the same reason.
- ValidIsaStringIdempotent: requires a spacer without `$`, for the same reason.
- CandidateIsLegal: requires a spacer without `$`, for the same reason.
- GetName: the legality of the candidates is promised only for a spacer without `$`, for the same reason; the same holds for GetLocalName.
- GetLocalName: see the line on GetName.
- IsaUniqueNamer.IsaUniqueNamer.GetName: the collision scheme of Boogie's `UniqueNamer` is not part of this model. It is a parameter `resolve`, so the contracts say which request is made and that the answer is `resolve`'s. They do not say that names are unique.
- MembershipLemmaManager.MembershipLemmaManager.constructor: when the configuration omits a part, the source dereferences the parent. Those null dereferences are preconditions here: a parent exists when a part is not generated here, and a parent provides `globals_max` when it is needed.
- MembershipLemmaOf: without definitions, the proof cites `mconst_` plus the namer's answer to a second request for the same declaration. That this is the name of the constant lemma registered earlier holds only if the backing namer gives a declaration it has named before the same name again. The backing namer is not part of this model, so the citation is stated by name and request, not proved equal to the registered lemma.
- AddVariableMembershipLemmas: for the same reason, a constant's membership proof is not proved to cite the constant lemma registered just before it.
- MembershipLemmaManager.MembershipLemmaManager.constructor: the term builders, translations, type visitor and proof-text helpers are uninterpreted record fields. Properties about them hold for every choice.
- EndToEndVCProof: the translations, extractors, type utilities, `LemmaHelper` and VC instantiation are fields of `Generator`. Axioms are identified by their position in the axiom list.
- AxiomProofStep: the program accessor's `MembershipLemma` is a total function here. In the source it is the catalog's lookup, which can throw (`KeyNotFound`, or a null reference past the root scope). The iff "fails exactly for a fatal axiom kind" therefore assumes the accessor answers every declaration of the program. That holds when the catalog was built over the same program.
- AxiomProofFails: the iff relies on the same total accessor.
- CorrectedFinalProof: "fails only on a fatal VC axiom" relies on the same total accessor.
- CorrectedGenerateProof: the failure iff relies on the same total accessor.
- EndToEndVCProof.FinalProof: the proof is a list of lines rather than one `StringBuilder` text, and the text of terms is an uninterpreted printer.
- EndToEndVCProof.VcDeclIds: the program variables are the parameters followed by the locals. `Union`'s removal of duplicates is not modelled; the lists are assumed disjoint.
- EndToEndVCProof: the constructor call at Source/ProofGeneration/ProofGenerationLayer.cs:201 does not match the constructor's signature, so the model takes the constructed state as given.
- ProofGenerationLayer: the static fields, `VCGenerateAllProofs` orchestration and `StoreTheory` file output are plumbing and I/O, and are left out.
- ProofGenerationLayer.GetNonEmptySuccessors: the walk has no visited set and does not end on a cyclic graph. It is modelled on graphs with a rank that decreases along edges only.
- ProofGenerationLayer.ComputeReachableEmptyBlocks: the same acyclicity restriction applies.
- ProofGenerationLayer.GenerateVCLemmas: the graph must list each block once. With a repeated block the source's `Dictionary.Add` would throw; that crash is not modelled.
- ProofGenerationLayer.GetAdjustedLemmas: the same distinct-blocks restriction applies.
- ProofGenerationLayer.PassiveVariableMap.AfterPassification: the two argument lists stand for the `Union`s of parameters, locals and outputs that the source builds. Removing repeated variables is the caller's part, so a variable listed twice is reported as a duplicate here.
- The generators of block lemmas (`GenerateBlockLemma`, `GenerateEmptyBlockLemma`) and the VC hint manager are parameters of the layer's methods.
- CfgToDagHintManager.CfgToDagHintManager.constructor: the source inverts the before-DAG map with a dictionary `Add`, which throws on two blocks with the same original, and indexes the inverted map with every loop head and back-edge node, which throws for a missing one. Both crashes are preconditions here: the map is injective and every loop head and back-edge node has a before-DAG block.
- IsaVisitor.Visit: the visitor has no handler for binary terms, quantifiers, case distinctions or terms with an explicit type. What those terms' own `Dispatch` does is defined in the term classes, which are not part of this model, so the model answers `None` for them.
- Commented-out code in the end-to-end proof and the layer is not modelled.
- Which emitted Isabelle proofs actually check is up to Isabelle and outside the model.

## Findings

| source | as written | input that shows it | evidently intended | confidence | as-written member | corrected member |
|---|---|---|---|---|---|---|
| Source/ProofGeneration/Util.cs:14-19 | For an absent key, `Add` creates a list and appends to it, but never stores it in the dictionary | `Add(0, 1, {})` leaves the dictionary empty | The fresh list is stored under the key, so the dictionary becomes `{0: [1]}` | not executed | Util.AddAsWrittenLosesFirstValue | Util.AddAllGroupsByKey |
| Source/ProofGeneration/ProgramToVCProof/EndToEndVCProof.cs:785-789 | `EvaluationName` indexes `axiomIdDict`, which no code assigns, so the final proof throws | any procedure with at least one axiom | Axioms are numbered so that evaluation facts are `ea_0`, `ea_1`, … | not executed | EndToEndVCProof.AsWrittenFinalProofFails | EndToEndVCProof.CorrectedFinalProof |
