/**
 * The membership-lemma catalog of one generated theory. For every declaration it registers a
 * lemma stating that the declaration occurs in the theory's declaration lists, under a name with a
 * fixed prefix; references to lemmas are qualified by the theory name. What a scope does not
 * generate itself is looked up in its parent scope. At construction the catalog also generates the
 * helper lemmas on variable-id bounds, the disjointness of globals and locals, and the typing
 * facts.
 */
module MembershipLemmaManager {
  import opened Wrappers
  import opened IsaAst
  import opened BoogieAst
  import opened Foreign
  import Tables
  import Strings
  import N = IsaUniqueNamer

  datatype VarKind = Constant | Global | ParamOrLocal

  /** Which parts of the program this theory generates itself; the rest comes from the parent. */
  datatype Config = Config(
    generateFunctions: bool,
    generateAxioms: bool,
    generateGlobalsAndConstants: bool,
    generateParamsAndLocals: bool,
    generateSpecs: bool)

  /** The unqualified names of the program's definitions in the theory. */
  datatype ProgramRepr = ProgramRepr(
    funcsDeclDef: string,
    axiomsDeclDef: string,
    preconditionsDeclDef: string,
    postconditionsDeclDef: string,
    paramsDeclDef: string,
    localVarsDeclDef: string,
    constantsDeclDef: string,
    globalsDeclDef: string,
    cfgDeclDef: string)

  /** The definitions a theory provides only when its configuration says so. */
  datatype GatedDecl = Functions | Axioms | Preconditions | Postconditions

  /** A question a scope answers itself or passes to its parent: the five accessors that delegate. */
  datatype Query =
    | MembershipOf(d: Declaration)
    | ConstantOf(c: Declaration)
    | LookupVarTyOf(v: Declaration)
    | GlobalsMaxRef
    | GatedName(which: GatedDecl)

  const LocalsMinName: string := "locals_min"
  const GlobalsMaxName: string := "globals_max"
  const GlobalsLocalsDisjName: string := "globals_locals_disj"
  const FuncsWfName: string := "funcs_wf"
  const ConstsWfName: string := "consts_wf"
  const GlobalsWfName: string := "globals_wf"
  const ParamsWfName: string := "params_wf"
  const LocalsWfName: string := "locals_wf"
  const VarContextWfName: string := "var_context_wf"

  /** A reference to `name` from outside its theory. */
  function Qualify(theoryName: string, name: string): string
  {
    theoryName + "." + name
  }

  /** The position of the first dot in `s`, or `|s|` when there is none. */
  function FirstDot(s: string): (k: nat)
    ensures k <= |s|
  {
    if |s| == 0 || s[0] == '.' then 0 else 1 + FirstDot(s[1..])
  }

  lemma {:induction false} FirstDotOfQualified(t: string, n: string)
    requires '.' !in t
    ensures FirstDot(Qualify(t, n)) == |t|
  {
    if |t| > 0 {
      assert Qualify(t, n)[1..] == Qualify(t[1..], n);
      FirstDotOfQualified(t[1..], n);
    }
  }

  /** Qualified references determine the theory and the lemma, provided theory names contain no dot. */
  lemma QualifyInjective(t1: string, n1: string, t2: string, n2: string)
    requires '.' !in t1 && '.' !in t2
    requires Qualify(t1, n1) == Qualify(t2, n2)
    ensures t1 == t2 && n1 == n2
  {
    var q := Qualify(t1, n1);
    FirstDotOfQualified(t1, n1);
    FirstDotOfQualified(t2, n2);
    assert t1 == q[..|t1|] == t2;
    assert n1 == q[|t1| + 1..] == n2;
  }

  function Names(lemmas: seq<LemmaDecl>): (r: seq<string>)
    ensures |r| == |lemmas| && forall i :: 0 <= i < |lemmas| ==> r[i] == lemmas[i].name
  {
    seq(|lemmas|, i requires 0 <= i < |lemmas| => lemmas[i].name)
  }

  // ---------------------------------------------------------------- names of membership lemmas

  /** The prefix of the membership lemma of a declaration: functions and other declarations differ. */
  function MembershipPrefix(d: Declaration): string
  {
    if d.Function? then "mfun_" else "m_"
  }

  const ConstantMembershipPrefix: string := "mconst_"

  /** The membership lemma of the i-th axiom, counting from 0. */
  function AxiomMembershipName(id: nat): (r: string)
    ensures Strings.StartsWith(r, "ma_")
  {
    "ma_" + Strings.NatToString(id)
  }

  /** Axioms at different positions get different lemma names. */
  lemma AxiomMembershipNamesDistinct(i: nat, j: nat)
    requires i != j
    ensures AxiomMembershipName(i) != AxiomMembershipName(j)
  {
    Strings.IndexedNamesDistinct("ma_", i, j);
  }

  /**
   * The four name families are disjoint: a function's, another declaration's, a constant's and an
   * axiom's membership lemma never share a name, whatever the namer returns.
   */
  lemma NameFamiliesDisjoint(a: string, b: string, i: nat)
    ensures "mfun_" + a != "m_" + b
    ensures "mconst_" + a != "m_" + b
    ensures "mconst_" + a != "mfun_" + b
    ensures AxiomMembershipName(i) != "m_" + b
    ensures AxiomMembershipName(i) != "mfun_" + a
    ensures AxiomMembershipName(i) != "mconst_" + a
  {
    assert ("mfun_" + a)[1] == 'f' && ("m_" + b)[1] == '_';
    assert ("mconst_" + a)[1] == 'c';
    assert ("mfun_" + b)[1] == 'f';
    assert AxiomMembershipName(i)[1] == 'a';
  }

  // ---------------------------------------------------------------- statements

  /** `map_of list id = Some decl` (or `nth list id = decl`): the declaration occurs in the list. */
  function MembershipStatement(env: Env, sourceList: Term, id: Term, decl: Term, useMapOf: bool): (t: Term)
    ensures t.TermBinary? && t.binOp == Eq && t.lhs.TermApp? && t.lhs.args == [sourceList, id]
    ensures t.lhs.fun == TermIdent(if useMapOf then "map_of" else "nth")
  {
    TermBinary(
      TermApp(TermIdent(if useMapOf then "map_of" else "nth"), [sourceList, id]),
      if useMapOf then env.term(SomeOption, [decl]) else decl,
      Eq)
  }

  /** The names of a variable list: `map fst list`. */
  function VariableNames(env: Env, variableDeclarations: Term): Term
  {
    env.term(Map, [env.term(FstId, []), variableDeclarations])
  }

  // ---------------------------------------------------------------- helper lemmas

  /**
   * The two bound lemmas on the variable ids of a list pair: globals are at most `bound`, or locals
   * at least `bound`. The second is proved from the first.
   */
  function MinOrMaxLemmas(env: Env, isGlobal: bool, bound: nat, varNames: Term, firstList: string, secondList: string): (r: seq<LemmaDecl>)
    ensures |r| == 2
    ensures r[0].name == (if isGlobal then GlobalsMaxName else LocalsMinName) + "_aux"
    ensures r[1].name == (if isGlobal then GlobalsMaxName else LocalsMinName)
    ensures r[0].proof == ["unfolding " + firstList + "_def " + secondList + "_def", "by simp"]
    ensures r[1].proof == ["using " + r[0].name + (if isGlobal then " helper_max" else " helper_min"), "by blast"]
  {
    var baseName := if isGlobal then GlobalsMaxName else LocalsMinName;
    var varSet := env.term(SetOfList, [varNames]);
    var aux := PlainLemma(baseName + "_aux",
      TermBinary(
        TermBinary(varNames, env.term(EmptyList, []), Neq),
        if isGlobal then TermBinary(env.term(SetMax, [varSet]), NatConst(bound), Le)
        else TermBinary(env.term(SetMin, [varSet]), NatConst(bound), Ge),
        Implies),
      ["unfolding " + firstList + "_def " + secondList + "_def", "by simp"]);
    var boundLemma := PlainLemma(baseName,
      TermQuantifier(ForAll, ["x"], None,
        TermBinary(
          env.term(Elem, [TermIdent("x"), varSet]),
          TermBinary(TermIdent("x"), NatConst(bound), if isGlobal then Le else Ge),
          Implies)),
      ["using " + aux.name + (if isGlobal then " helper_max" else " helper_min"), "by blast"]);
    [aux, boundLemma]
  }

  /** The proof of `globals_locals_disj`: equal bounds mean there are no globals to separate. */
  function DisjointnessProof(consts: string, globals: string, localsAtLeastMin: string, globalsAtMostMax: Result<string>,
                             globalsMax: nat, localsMin: nat): (r: Result<seq<string>>)
    ensures globalsMax == localsMin ==> r == Ok(["unfolding " + consts + "_def " + globals + "_def", "by simp"])
    ensures globalsMax != localsMin ==>
      (r.Ok? <==> globalsAtMostMax.Ok?) &&
      (r.Ok? ==> r.value == ["using " + localsAtLeastMin + " " + globalsAtMostMax.value, "by fastforce"])
  {
    if globalsMax == localsMin then Ok(["unfolding " + consts + "_def " + globals + "_def", "by simp"])
    else if globalsAtMostMax.Err? then Err(globalsAtMostMax.fault)
    else Ok(["using " + localsAtLeastMin + " " + globalsAtMostMax.value, "by fastforce"])
  }

  /** The id-bound lemmas and the disjointness lemma, in the order they are generated. */
  function DisjointnessLemmas(env: Env, theoryName: string, config: Config,
                              consts: string, globals: string, parameters: string, locals: string,
                              constsAndGlobalsList: Term, paramsAndLocalsList: Term,
                              globalsAtMostMax: Result<string>, globalsMax: nat, localsMin: nat): Result<seq<LemmaDecl>>
  {
    var globalNames := VariableNames(env, constsAndGlobalsList);
    var localNames := VariableNames(env, paramsAndLocalsList);
    var bounds :=
      (if config.generateGlobalsAndConstants then MinOrMaxLemmas(env, true, globalsMax, globalNames, consts, globals) else []) +
      MinOrMaxLemmas(env, false, localsMin, localNames, parameters, locals);
    var statement := TermBinary(env.term(SetInter, [env.term(SetOfList, [globalNames]), env.term(SetOfList, [localNames])]),
                                env.term(EmptySet, []), Eq);
    var proof := DisjointnessProof(consts, globals, Qualify(theoryName, LocalsMinName), globalsAtMostMax, globalsMax, localsMin);
    if proof.Err? then Err(proof.fault)
    else Ok(bounds + [PlainLemma(GlobalsLocalsDisjName, statement, proof.value)])
  }

  /** `list_all (fun o snd) list`, proved by unfolding the list. */
  function WfLemma(env: Env, lemmaName: string, listDef: string, fun: Term): (l: LemmaDecl)
    ensures l.name == lemmaName && l.proof == ["unfolding " + listDef + "_def", "by simp"]
  {
    PlainLemma(lemmaName,
      TermApp(env.term(ListAll, [env.term(Composition, [fun, env.term(SndId, [])]), TermIdent(listDef)]), []),
      ["unfolding " + listDef + "_def", "by simp"])
  }

  /** The well-typedness facts of the functions and of the four variable lists, and of the variable context. */
  function TypingHelperLemmas(env: Env, repr: ProgramRepr, constsAndGlobalsList: Term, paramsAndLocalsList: Term): (r: seq<LemmaDecl>)
    ensures |r| == 6
    ensures r[5].proof == [env.text(Apply, ["rule lookup_ty_pred_2"]),
                           env.text(By, [env.text(SimpAll, [r[1].name, r[2].name, r[3].name, r[4].name])])]
  {
    var wfTy0 := TermApp(TermIdent("wf_ty"), [NatConst(0)]);
    var varContextWf := PlainLemma(VarContextWfName,
      TermQuantifier(ForAll, ["x", "\\<tau>"], None,
        TermBinary(
          TermBinary(TermApp(TermIdent("lookup_var_ty"), [TermTuple([constsAndGlobalsList, paramsAndLocalsList]), TermIdent("x")]),
                     env.term(SomeOption, [TermIdent("\\<tau>")]), Eq),
          TermApp(wfTy0, [TermIdent("\\<tau>")]),
          Implies)),
      [env.text(Apply, ["rule lookup_ty_pred_2"]),
       env.text(By, [env.text(SimpAll, [ConstsWfName, GlobalsWfName, ParamsWfName, LocalsWfName])])]);
    [WfLemma(env, FuncsWfName, repr.funcsDeclDef, TermIdent("wf_fdecl")),
     WfLemma(env, ConstsWfName, repr.constantsDeclDef, wfTy0),
     WfLemma(env, GlobalsWfName, repr.globalsDeclDef, wfTy0),
     WfLemma(env, ParamsWfName, repr.paramsDeclDef, wfTy0),
     WfLemma(env, LocalsWfName, repr.localVarsDeclDef, wfTy0),
     varContextWf]
  }

  /** All helper lemmas generated at construction, in order. */
  function HelperLemmas(env: Env, theoryName: string, config: Config, repr: ProgramRepr,
                        consts: string, globals: string, parameters: string, locals: string,
                        constsAndGlobalsList: Term, paramsAndLocalsList: Term,
                        globalsAtMostMax: Result<string>, globalsMax: nat, localsMin: nat): Result<seq<LemmaDecl>>
  {
    var disj := DisjointnessLemmas(env, theoryName, config, consts, globals, parameters, locals,
                                   constsAndGlobalsList, paramsAndLocalsList, globalsAtMostMax, globalsMax, localsMin);
    if disj.Err? then disj
    else Ok(disj.value + (if config.generateFunctions then TypingHelperLemmas(env, repr, constsAndGlobalsList, paramsAndLocalsList) else []))
  }

  /** The names of the helper lemmas a configuration generates, in order. */
  function ExpectedHelperNames(config: Config): seq<string>
  {
    (if config.generateGlobalsAndConstants then [GlobalsMaxName + "_aux", GlobalsMaxName] else []) +
    [LocalsMinName + "_aux", LocalsMinName, GlobalsLocalsDisjName] +
    (if config.generateFunctions then [FuncsWfName, ConstsWfName, GlobalsWfName, ParamsWfName, LocalsWfName, VarContextWfName] else [])
  }

  /**
   * Helper-lemma names: `globals_max` (and its auxiliary lemma) exactly when globals and constants
   * are generated, `locals_min` and `globals_locals_disj` always, the six typing facts exactly when
   * functions are generated.
   */
  lemma HelperLemmaNames(env: Env, theoryName: string, config: Config, repr: ProgramRepr,
                         consts: string, globals: string, parameters: string, locals: string,
                         constsAndGlobalsList: Term, paramsAndLocalsList: Term,
                         globalsAtMostMax: Result<string>, globalsMax: nat, localsMin: nat)
    requires HelperLemmas(env, theoryName, config, repr, consts, globals, parameters, locals,
                          constsAndGlobalsList, paramsAndLocalsList, globalsAtMostMax, globalsMax, localsMin).Ok?
    ensures Names(HelperLemmas(env, theoryName, config, repr, consts, globals, parameters, locals,
                               constsAndGlobalsList, paramsAndLocalsList, globalsAtMostMax, globalsMax, localsMin).value)
            == ExpectedHelperNames(config)
  {
    var globalNames := VariableNames(env, constsAndGlobalsList);
    var localNames := VariableNames(env, paramsAndLocalsList);
    var g := MinOrMaxLemmas(env, true, globalsMax, globalNames, consts, globals);
    var l := MinOrMaxLemmas(env, false, localsMin, localNames, parameters, locals);
    var t := TypingHelperLemmas(env, repr, constsAndGlobalsList, paramsAndLocalsList);
    assert Names(g) == [GlobalsMaxName + "_aux", GlobalsMaxName];
    assert Names(l) == [LocalsMinName + "_aux", LocalsMinName];
    assert Names(t) == [FuncsWfName, ConstsWfName, GlobalsWfName, ParamsWfName, LocalsWfName, VarContextWfName];
  }

  /** The disjointness proof is the only helper proof that depends on the bounds, and the only one that may fail. */
  lemma HelperLemmasFailOnlyForMissingMax(env: Env, theoryName: string, config: Config, repr: ProgramRepr,
                                          consts: string, globals: string, parameters: string, locals: string,
                                          constsAndGlobalsList: Term, paramsAndLocalsList: Term,
                                          globalsAtMostMax: Result<string>, globalsMax: nat, localsMin: nat)
    ensures HelperLemmas(env, theoryName, config, repr, consts, globals, parameters, locals,
                         constsAndGlobalsList, paramsAndLocalsList, globalsAtMostMax, globalsMax, localsMin).Err?
            <==> globalsMax != localsMin && globalsAtMostMax.Err?
  {
  }

  // ---------------------------------------------------------------- the bounds argument

  /** Globals at most `globalsMax` and locals at least `localsMin` are disjoint when the bounds are strictly ordered. */
  lemma BoundsSeparate(globalIds: set<nat>, localIds: set<nat>, globalsMax: nat, localsMin: nat)
    requires forall x :: x in globalIds ==> x <= globalsMax
    requires forall x :: x in localIds ==> x >= localsMin
    requires globalsMax < localsMin
    ensures globalIds * localIds == {}
  {
    if x :| x in globalIds * localIds {
      assert x <= globalsMax && x >= localsMin;
    }
  }

  /**
   * With equal bounds the two bound facts leave the shared bound itself open: the id sets are
   * disjoint exactly when the bound is not in both, so the bound lemmas alone cannot prove the
   * disjointness and the proof unfolds the definitions instead.
   */
  lemma EqualBoundsDoNotSeparate(globalIds: set<nat>, localIds: set<nat>, bound: nat)
    requires forall x :: x in globalIds ==> x <= bound
    requires forall x :: x in localIds ==> x >= bound
    ensures globalIds * localIds <= {bound}
    ensures globalIds * localIds == {} <==> !(bound in globalIds && bound in localIds)
  {
    forall x | x in globalIds * localIds
      ensures x == bound
    {
      assert x <= bound && x >= bound;
    }
    if bound in globalIds && bound in localIds {
      assert bound in globalIds * localIds;
    }
  }

  // ---------------------------------------------------------------- variable ids

  /** The id term of a variable: it must translate, and not to a bound variable. */
  function IdOfVar(d: Declaration): (r: Result<Term>)
    ensures r.Ok? <==> d.Variable? && d.translation.Some? && !d.translation.value.isBound
    ensures r.Ok? ==> r.value == d.translation.value.id
    ensures r.Err? ==> r.fault == UnexpectedState("Could not retrieve variable id")
  {
    if d.Variable? && d.translation.Some? && !d.translation.value.isBound then Ok(d.translation.value.id)
    else Err(UnexpectedState("Could not retrieve variable id"))
  }

  /** How a declaration is identified in its list: functions by name, variables by id. */
  datatype IdScheme = ByName | ByVarId

  function IdTerm(scheme: IdScheme, d: Declaration): Result<Term>
  {
    match scheme
    case ByName => Ok(StringConst(NameOf(d)))
    case ByVarId => IdOfVar(d)
  }

  /** The lemmas of a list as outer declarations. */
  function AsDecls(lemmas: seq<LemmaDecl>): (r: seq<OuterDecl>)
    ensures |r| == |lemmas| && forall i :: 0 <= i < |lemmas| ==> r[i] == Lemma(lemmas[i])
  {
    seq(|lemmas|, i requires 0 <= i < |lemmas| => Lemma(lemmas[i]))
  }

  /** The proof of a lookup-type lemma: disjointness plus the cited membership lemma. */
  function LookupVarTyProof(membershipLemma: string): seq<string>
  {
    ["using " + GlobalsLocalsDisjName + " " + membershipLemma, "by (simp add: lookup_var_ty_global_2 lookup_var_ty_local)"]
  }

  /**
   * `l` is the membership lemma of a declaration with id `id` and translation `decl` in `sourceList`:
   * its statement, its name prefix, and a proof that either simplifies with the given definitions
   * or, when there are none, cites the declaration's constant lemma.
   */
  ghost predicate IsMembershipLemma(l: LemmaDecl, env: Env, sourceList: Term, definitions: seq<string>,
                                    id: Term, decl: Term, useMapOf: bool, prefix: string)
  {
    l.statement == MembershipStatement(env, sourceList, id, decl, useMapOf) &&
    Strings.StartsWith(l.name, prefix) &&
    (|definitions| > 0 ==> l.proof == ["by " + env.text(Simp, definitions)]) &&
    (|definitions| == 0 ==> |l.proof| == 1 && Strings.StartsWith(l.proof[0], "by (simp add: " + ConstantMembershipPrefix))
  }

  /** The request `GetName(d, preferredName)` hands to the backing namer of `namer`. */
  function NamerRequestOf(namer: N.IsaUniqueNamer<Declaration>, d: Declaration, preferredName: string): N.NamerRequest<Declaration>
  {
    N.GlobalName(d, N.ValidIsaString(N.ReservedRewrite(preferredName), namer.spacer))
  }

  /** The name `GetName(d, preferredName)` returns after the requests `earlier`. */
  function NamerAnswer(namer: N.IsaUniqueNamer<Declaration>, earlier: seq<N.NamerRequest<Declaration>>,
                       d: Declaration, preferredName: string): string
  {
    namer.resolve(namer.spacer, earlier, NamerRequestOf(namer, d, preferredName))
  }

  class MembershipLemmaManager {
    /** The scope asked for everything this one does not generate; None at the root. */
    const parent: Option<MembershipLemmaManager>
    /** The number of scopes above this one. */
    ghost const depth: nat
    /** The scopes above this one. */
    ghost const Ancestors: set<MembershipLemmaManager>

    const env: Env
    const config: Config
    const repr: ProgramRepr
    const theoryName: string
    /** The qualified names of the four variable lists: this theory's, or the parent's. */
    const parameters: string
    const locals: string
    const consts: string
    const globals: string
    const paramsAndLocalsDefs: seq<string>
    const constsAndGlobalsDefs: seq<string>
    const paramsAndLocalsList: Term
    const constsAndGlobalsList: Term
    /** The helper lemmas, all generated at construction. */
    const helperLemmas: seq<LemmaDecl>
    const membershipNamer: N.IsaUniqueNamer<Declaration>
    const lookupVarTyNamer: N.IsaUniqueNamer<Declaration>

    var membershipLemmas: Tables.Table<Declaration, LemmaDecl>
    /** Constant lemmas, stating membership in the constants list alone. */
    var constantMembershipLemmas: Tables.Table<Declaration, LemmaDecl>
    var lookupVarTyLemmas: Tables.Table<Declaration, LemmaDecl>

    /** The parent chain is finite and every scope on it carries the helper lemmas its configuration calls for. */
    ghost predicate Linked()
      decreases depth
    {
      this !in Ancestors &&
      (forall a :: a in Ancestors ==> a.depth < depth) &&
      Names(helperLemmas) == ExpectedHelperNames(config) &&
      match parent
      case None => Ancestors == {}
      case Some(p) => Ancestors == {p} + p.Ancestors && p.Linked()
    }

    ghost predicate Valid()
      reads this
    {
      Linked() && membershipNamer != lookupVarTyNamer && TablesValid()
    }

    lemma AncestorsLinked()
      requires Linked()
      ensures forall a :: a in Ancestors ==> a.Linked()
      decreases depth
    {
      if parent.Some? {
        parent.value.AncestorsLinked();
      }
    }

    constructor (config: Config, parent: Option<MembershipLemmaManager>, repr: ProgramRepr,
                 globalsMax: nat, localsMin: nat, env: Env, theoryName: string,
                 resolveName: (string, seq<N.NamerRequest<Declaration>>, N.NamerRequest<Declaration>) -> string)
      requires parent.Some? ==> parent.value.Linked()
      requires !config.generateParamsAndLocals || !config.generateGlobalsAndConstants ==> parent.Some?
      requires globalsMax != localsMin && !config.generateGlobalsAndConstants ==>
        parent.Some? && parent.value.GlobalsAtMostMax().Ok?
      ensures Valid()
      ensures this.parent == parent && this.config == config && this.repr == repr && this.env == env && this.theoryName == theoryName
      ensures parameters == if config.generateParamsAndLocals then Qualify(theoryName, repr.paramsDeclDef) else parent.value.parameters
      ensures locals == if config.generateParamsAndLocals then Qualify(theoryName, repr.localVarsDeclDef) else parent.value.locals
      ensures consts == if config.generateGlobalsAndConstants then Qualify(theoryName, repr.constantsDeclDef) else parent.value.consts
      ensures globals == if config.generateGlobalsAndConstants then Qualify(theoryName, repr.globalsDeclDef) else parent.value.globals
      ensures paramsAndLocalsDefs == [repr.paramsDeclDef + "_def", repr.localVarsDeclDef + "_def"]
      ensures constsAndGlobalsDefs == [consts + "_def", globals + "_def"]
      ensures HelperLemmas(env, theoryName, config, repr, consts, globals, parameters, locals,
                           constsAndGlobalsList, paramsAndLocalsList, GlobalsAtMostMax(), globalsMax, localsMin) == Ok(helperLemmas)
      ensures membershipLemmas == Tables.Empty() && constantMembershipLemmas == Tables.Empty() && lookupVarTyLemmas == Tables.Empty()
      ensures fresh(membershipNamer) && fresh(lookupVarTyNamer)
    {
      this.parent := parent;
      this.config := config;
      this.repr := repr;
      this.env := env;
      this.theoryName := theoryName;
      depth := if parent.None? then 0 else parent.value.depth + 1;
      Ancestors := if parent.None? then {} else {parent.value} + parent.value.Ancestors;
      paramsAndLocalsDefs := [repr.paramsDeclDef + "_def", repr.localVarsDeclDef + "_def"];
      var ps := if config.generateParamsAndLocals then Qualify(theoryName, repr.paramsDeclDef) else parent.value.parameters;
      var ls := if config.generateParamsAndLocals then Qualify(theoryName, repr.localVarsDeclDef) else parent.value.locals;
      var cs := if config.generateGlobalsAndConstants then Qualify(theoryName, repr.constantsDeclDef) else parent.value.consts;
      var gs := if config.generateGlobalsAndConstants then Qualify(theoryName, repr.globalsDeclDef) else parent.value.globals;
      parameters, locals, consts, globals := ps, ls, cs, gs;
      var plList := env.term(AppendList, [TermIdent(ps), TermIdent(ls)]);
      var cgList := env.term(AppendList, [TermIdent(cs), TermIdent(gs)]);
      paramsAndLocalsList := plList;
      constsAndGlobalsDefs := [cs + "_def", gs + "_def"];
      constsAndGlobalsList := cgList;
      var globalsAtMostMax: Result<string> :=
        if config.generateGlobalsAndConstants then Ok(Qualify(theoryName, GlobalsMaxName))
        else if parent.None? then Err(NullReference)
        else parent.value.GlobalsAtMostMax();
      HelperLemmasFailOnlyForMissingMax(env, theoryName, config, repr, cs, gs, ps, ls, cgList, plList, globalsAtMostMax, globalsMax, localsMin);
      var helpers := HelperLemmas(env, theoryName, config, repr, cs, gs, ps, ls, cgList, plList, globalsAtMostMax, globalsMax, localsMin);
      HelperLemmaNames(env, theoryName, config, repr, cs, gs, ps, ls, cgList, plList, globalsAtMostMax, globalsMax, localsMin);
      helperLemmas := helpers.value;
      membershipNamer := new N.IsaUniqueNamer.WithDefaultSpacer(resolveName);
      lookupVarTyNamer := new N.IsaUniqueNamer.WithDefaultSpacer(resolveName);
      membershipLemmas := Tables.Empty();
      constantMembershipLemmas := Tables.Empty();
      lookupVarTyLemmas := Tables.Empty();
    }

    // ------------------------------------------------------------ accessors

    /** The qualified reference to `globals_max`, from the nearest scope that generates globals. */
    function GlobalsAtMostMax(): (r: Result<string>)
      requires Linked()
      decreases depth
      ensures config.generateGlobalsAndConstants ==> r == Ok(Qualify(theoryName, GlobalsMaxName))
      ensures r.Ok? ==> exists m :: (m in {this} + Ancestors && m.config.generateGlobalsAndConstants &&
        r.value == Qualify(m.theoryName, GlobalsMaxName))
    {
      if config.generateGlobalsAndConstants then Ok(Qualify(theoryName, GlobalsMaxName))
      else match parent
        case None => Err(NullReference)
        case Some(p) => p.GlobalsAtMostMax()
    }

    function LocalsAtLeastMin(): string
    {
      Qualify(theoryName, LocalsMinName)
    }

    function GlobalsLocalsDisjointLemma(): string
    {
      Qualify(theoryName, GlobalsLocalsDisjName)
    }

    function VarContextWfTyLemma(): string
    {
      Qualify(theoryName, VarContextWfName)
    }

    function FuncsWfTyLemma(): string
    {
      Qualify(theoryName, FuncsWfName)
    }

    function CfgDecl(): Term
    {
      TermIdent(Qualify(theoryName, repr.cfgDeclDef))
    }

    /** The variable context: constants and globals, then parameters and locals. */
    function VarContext(): Term
    {
      TermTuple([constsAndGlobalsList, paramsAndLocalsList])
    }

    function DefName(which: GatedDecl): string
    {
      match which
      case Functions => repr.funcsDeclDef
      case Axioms => repr.axiomsDeclDef
      case Preconditions => repr.preconditionsDeclDef
      case Postconditions => repr.postconditionsDeclDef
    }

    static function Generates(config: Config, which: GatedDecl): bool
    {
      match which
      case Functions => config.generateFunctions
      case Axioms => config.generateAxioms
      case Preconditions => config.generateSpecs
      case Postconditions => config.generateSpecs
    }

    /**
     * The qualified name of a gated definition (functions, axioms, pre- and postconditions): this
     * theory's when its configuration generates it, otherwise the parent's.
     */
    function GatedDeclName(which: GatedDecl): (r: Result<string>)
      requires Linked()
      decreases depth
      ensures Generates(config, which) ==> r == Ok(Qualify(theoryName, DefName(which)))
      ensures r.Ok? ==> exists m :: (m in {this} + Ancestors && Generates(m.config, which) &&
        r.value == Qualify(m.theoryName, m.DefName(which)))
      ensures r.Err? ==> r.fault == NullReference
    {
      if Generates(config, which) then Ok(Qualify(theoryName, DefName(which)))
      else match parent
        case None => Err(NullReference)
        case Some(p) => p.GatedDeclName(which)
    }

    // ------------------------------------------------------------ lookups

    /**
     * The qualified membership lemma of `d`: a variable registered here, or a function or axiom when
     * this theory generates those (then a missing entry is a lookup failure); anything else is asked
     * of the parent.
     */
    function MembershipLemma(d: Declaration): (r: Result<string>)
      requires Linked()
      reads this`membershipLemmas, Ancestors
      decreases depth
      ensures d.Variable? && d in membershipLemmas.entries ==> r == Ok(Qualify(theoryName, membershipLemmas.entries[d].name))
      ensures (d.Function? && config.generateFunctions) || (d.Axiom? && config.generateAxioms) ==>
        r == if d in membershipLemmas.entries then Ok(Qualify(theoryName, membershipLemmas.entries[d].name)) else Err(KeyNotFound)
      ensures r.Ok? ==> exists m :: (m in {this} + Ancestors && d in m.membershipLemmas.entries &&
        r.value == Qualify(m.theoryName, m.membershipLemmas.entries[d].name))
    {
      if d.Variable? && d in membershipLemmas.entries then Ok(Qualify(theoryName, membershipLemmas.entries[d].name))
      else if (d.Function? && config.generateFunctions) || (d.Axiom? && config.generateAxioms) then
        match Tables.Get(membershipLemmas, d)
        case Ok(l) => Ok(Qualify(theoryName, l.name))
        case Err(f) => Err(f)
      else match parent
        case None => Err(NullReference)
        case Some(p) => p.MembershipLemma(d)
    }

    /** The qualified constant lemma of `c`: registered here, or asked of the parent. */
    function ConstantMembershipLemma(c: Declaration): (r: Result<string>)
      requires Linked()
      reads this`constantMembershipLemmas, Ancestors
      decreases depth
      ensures c in constantMembershipLemmas.entries ==> r == Ok(Qualify(theoryName, constantMembershipLemmas.entries[c].name))
      ensures r.Ok? ==> exists m :: (m in {this} + Ancestors && c in m.constantMembershipLemmas.entries &&
        r.value == Qualify(m.theoryName, m.constantMembershipLemmas.entries[c].name))
    {
      if c in constantMembershipLemmas.entries then Ok(Qualify(theoryName, constantMembershipLemmas.entries[c].name))
      else match parent
        case None => Err(NullReference)
        case Some(p) => p.ConstantMembershipLemma(c)
    }

    /** The qualified lookup-type lemma of `v`: registered here, or asked of the parent. */
    function LookupVarTyLemma(v: Declaration): (r: Result<string>)
      requires Linked()
      reads this`lookupVarTyLemmas, Ancestors
      decreases depth
      ensures v in lookupVarTyLemmas.entries ==> r == Ok(Qualify(theoryName, lookupVarTyLemmas.entries[v].name))
      ensures r.Ok? ==> exists m :: (m in {this} + Ancestors && v in m.lookupVarTyLemmas.entries &&
        r.value == Qualify(m.theoryName, m.lookupVarTyLemmas.entries[v].name))
    {
      if v in lookupVarTyLemmas.entries then Ok(Qualify(theoryName, lookupVarTyLemmas.entries[v].name))
      else match parent
        case None => Err(NullReference)
        case Some(p) => p.LookupVarTyLemma(v)
    }

    /**
     * The membership lemma a lookup-type lemma cites: the unqualified local name when the scope has
     * just generated the membership lemmas, the parent's qualified reference otherwise.
     */
    function CitedMembershipLemma(local: bool, v: Declaration): (r: Result<string>)
      requires Linked()
      reads this`membershipLemmas, Ancestors
    {
      if local then
        match Tables.Get(membershipLemmas, v)
        case Ok(l) => Ok(l.name)
        case Err(f) => Err(f)
      else match parent
        case None => Err(NullReference)
        case Some(p) => p.MembershipLemma(v)
    }

    /** This scope and the scopes above it, nearest first: the order in which questions are passed on. */
    ghost function Chain(): (c: seq<MembershipLemmaManager>)
      requires Linked()
      decreases depth
      ensures |c| > 0 && c[0] == this
      ensures forall i :: 0 <= i < |c| ==> c[i] in {this} + Ancestors
    {
      match parent
      case None => [this]
      case Some(p) => [this] + p.Chain()
    }

    /** Whether this scope answers `q` itself instead of asking its parent. */
    ghost predicate Answers(q: Query)
      reads this
    {
      match q
      case MembershipOf(d) =>
        (d.Variable? && d in membershipLemmas.entries) || (d.Function? && config.generateFunctions) || (d.Axiom? && config.generateAxioms)
      case ConstantOf(c) => c in constantMembershipLemmas.entries
      case LookupVarTyOf(v) => v in lookupVarTyLemmas.entries
      case GlobalsMaxRef => config.generateGlobalsAndConstants
      case GatedName(which) => Generates(config, which)
    }

    /** What this scope answers to `q` from its own tables: the qualified lemma or definition, or a failed lookup. */
    ghost function LocalAnswer(q: Query): (r: Result<string>)
      reads this
      ensures r.Err? ==> r.fault == KeyNotFound
    {
      match q
      case MembershipOf(d) =>
        if d in membershipLemmas.entries then Ok(Qualify(theoryName, membershipLemmas.entries[d].name)) else Err(KeyNotFound)
      case ConstantOf(c) =>
        if c in constantMembershipLemmas.entries then Ok(Qualify(theoryName, constantMembershipLemmas.entries[c].name)) else Err(KeyNotFound)
      case LookupVarTyOf(v) =>
        if v in lookupVarTyLemmas.entries then Ok(Qualify(theoryName, lookupVarTyLemmas.entries[v].name)) else Err(KeyNotFound)
      case GlobalsMaxRef => Ok(Qualify(theoryName, GlobalsMaxName))
      case GatedName(which) => Ok(Qualify(theoryName, DefName(which)))
    }

    /** The accessor that answers `q`. */
    ghost function Ask(q: Query): Result<string>
      requires Linked()
      reads this, Ancestors
    {
      match q
      case MembershipOf(d) => MembershipLemma(d)
      case ConstantOf(c) => ConstantMembershipLemma(c)
      case LookupVarTyOf(v) => LookupVarTyLemma(v)
      case GlobalsMaxRef => GlobalsAtMostMax()
      case GatedName(which) => GatedDeclName(which)
    }

    /** The three lemma tables are well formed: each key listed once, in insertion order. */
    ghost predicate TablesValid()
      reads this
    {
      Tables.Valid(membershipLemmas) && Tables.Valid(constantMembershipLemmas) && Tables.Valid(lookupVarTyLemmas)
    }

    /** The declarations of the catalog: helper lemmas, constant lemmas, membership lemmas, lookup-type lemmas. */
    function OuterDecls(): (r: seq<OuterDecl>)
      requires TablesValid()
      reads this
      ensures |r| == |helperLemmas| + |constantMembershipLemmas.keys| + |membershipLemmas.keys| + |lookupVarTyLemmas.keys|
    {
      AsDecls(helperLemmas) + AsDecls(Tables.Values(constantMembershipLemmas)) +
      AsDecls(Tables.Values(membershipLemmas)) + AsDecls(Tables.Values(lookupVarTyLemmas))
    }

    function TargetTable(separateConstantLemmas: bool): Tables.Table<Declaration, LemmaDecl>
      reads this
    {
      if separateConstantLemmas then constantMembershipLemmas else membershipLemmas
    }

    /** The list the variables of a kind are looked up in. */
    function SourceListOf(varKind: VarKind): Term
    {
      if varKind == Constant || varKind == Global then constsAndGlobalsList else paramsAndLocalsList
    }

    /** The definitions a membership proof of a kind unfolds; none for constants, which cite their constant lemma. */
    function DefinitionsOf(varKind: VarKind): seq<string>
    {
      match varKind
      case Constant => []
      case Global => constsAndGlobalsDefs
      case ParamOrLocal => paramsAndLocalsDefs
    }

    // ------------------------------------------------------------ registration

    /** The membership lemma name of `d`: "mfun_" for functions, "m_" otherwise, then the namer's answer. */
    method MembershipName(d: Declaration) returns (name: string)
      modifies membershipNamer
      ensures Strings.StartsWith(name, MembershipPrefix(d))
      ensures name == MembershipPrefix(d) + NamerAnswer(membershipNamer, old(membershipNamer.requests), d, NameOf(d))
      ensures membershipNamer.requests == old(membershipNamer.requests) + [NamerRequestOf(membershipNamer, d, NameOf(d))]
    {
      var n := membershipNamer.GetName(d, NameOf(d));
      name := MembershipPrefix(d) + n;
    }

    /** The constant lemma name of `d`: "mconst_", then the namer's answer. */
    method ConstantMembershipName(d: Declaration) returns (name: string)
      modifies membershipNamer
      ensures Strings.StartsWith(name, ConstantMembershipPrefix)
      ensures name == ConstantMembershipPrefix + NamerAnswer(membershipNamer, old(membershipNamer.requests), d, NameOf(d))
      ensures membershipNamer.requests == old(membershipNamer.requests) + [NamerRequestOf(membershipNamer, d, NameOf(d))]
    {
      var n := membershipNamer.GetName(d, NameOf(d));
      name := ConstantMembershipPrefix + n;
    }

    /**
     * What the lemma registered for the j-th declaration of `decls` is: a membership lemma in
     * `sourceList`, identified by `scheme`, named with the prefix of its table.
     */
    ghost function MembershipCheck(decls: seq<Declaration>, sourceList: Term, definitions: seq<string>,
                                   scheme: IdScheme, useMapOf: bool, separateConstantLemmas: bool): (nat, LemmaDecl) -> bool
    {
      (j: nat, l: LemmaDecl) =>
        j < |decls| && IdTerm(scheme, decls[j]).Ok? &&
        IsMembershipLemma(l, env, sourceList, definitions, IdTerm(scheme, decls[j]).value, decls[j].isa, useMapOf,
                          if separateConstantLemmas then ConstantMembershipPrefix else MembershipPrefix(decls[j]))
    }

    /**
     * The membership lemma of one declaration: its id, its statement, its proof (which names the
     * constant lemma when there are no definitions to unfold), then its name.
     */
    method MembershipLemmaOf(d: Declaration, sourceList: Term, definitions: seq<string>,
                             scheme: IdScheme, useMapOf: bool, separateConstantLemmas: bool) returns (r: Result<LemmaDecl>)
      modifies membershipNamer
      ensures r.Err? ==> scheme == ByVarId && r.fault == UnexpectedState("Could not retrieve variable id")
      ensures r.Ok? ==> (IdTerm(scheme, d).Ok? &&
        IsMembershipLemma(r.value, env, sourceList, definitions, IdTerm(scheme, d).value, d.isa, useMapOf,
                          if separateConstantLemmas then ConstantMembershipPrefix else MembershipPrefix(d)))
      ensures r.Err? ==> membershipNamer.requests == old(membershipNamer.requests)
      // with definitions to unfold the namer is asked once, for the lemma's name
      ensures r.Ok? && |definitions| > 0 ==>
        membershipNamer.requests == old(membershipNamer.requests) + [NamerRequestOf(membershipNamer, d, NameOf(d))] &&
        r.value.name == (if separateConstantLemmas then ConstantMembershipPrefix else MembershipPrefix(d)) +
                        NamerAnswer(membershipNamer, old(membershipNamer.requests), d, NameOf(d))
      // without, it is asked first for the constant lemma the proof cites, then for the lemma's name
      ensures r.Ok? && |definitions| == 0 ==>
        membershipNamer.requests == old(membershipNamer.requests) + [NamerRequestOf(membershipNamer, d, NameOf(d)), NamerRequestOf(membershipNamer, d, NameOf(d))] &&
        r.value.proof == ["by (simp add: " + ConstantMembershipPrefix + NamerAnswer(membershipNamer, old(membershipNamer.requests), d, NameOf(d)) + " del: Nat.One_nat_def)"] &&
        r.value.name == (if separateConstantLemmas then ConstantMembershipPrefix else MembershipPrefix(d)) +
                        NamerAnswer(membershipNamer, old(membershipNamer.requests) + [NamerRequestOf(membershipNamer, d, NameOf(d))], d, NameOf(d))
    {
      var id := IdTerm(scheme, d);
      if id.Err? {
        return Err(id.fault);
      }
      var statement := MembershipStatement(env, sourceList, id.value, d.isa, useMapOf);
      var proof := MembershipProof(d, definitions);
      var name := TableLemmaName(d, separateConstantLemmas);
      return Ok(PlainLemma(name, statement, proof));
    }

    /**
     * The proof of a membership lemma: simplify with the definitions, or, when there are none,
     * cite the constant lemma of `d` under the name the namer gives `d`.
     */
    method MembershipProof(d: Declaration, definitions: seq<string>) returns (proof: seq<string>)
      modifies membershipNamer
      ensures |definitions| > 0 ==>
        proof == ["by " + env.text(Simp, definitions)] && membershipNamer.requests == old(membershipNamer.requests)
      ensures |definitions| == 0 ==>
        proof == ["by (simp add: " + ConstantMembershipPrefix + NamerAnswer(membershipNamer, old(membershipNamer.requests), d, NameOf(d)) + " del: Nat.One_nat_def)"] &&
        Strings.StartsWith(proof[0], "by (simp add: " + ConstantMembershipPrefix) &&
        membershipNamer.requests == old(membershipNamer.requests) + [NamerRequestOf(membershipNamer, d, NameOf(d))]
    {
      if |definitions| > 0 {
        proof := ["by " + env.text(Simp, definitions)];
      } else {
        ghost var before := membershipNamer.requests;
        var c := ConstantMembershipName(d);
        Strings.StartsWithInside("by (simp add: ", c, ConstantMembershipPrefix, " del: Nat.One_nat_def)");
        proof := ["by (simp add: " + c + " del: Nat.One_nat_def)"];
        assert proof[0] == "by (simp add: " + ConstantMembershipPrefix + NamerAnswer(membershipNamer, before, d, NameOf(d)) + " del: Nat.One_nat_def)";
      }
    }

    /** The name of a lemma for the constant table or the membership table. */
    method TableLemmaName(d: Declaration, separateConstantLemmas: bool) returns (name: string)
      modifies membershipNamer
      ensures name == (if separateConstantLemmas then ConstantMembershipPrefix else MembershipPrefix(d)) +
                      NamerAnswer(membershipNamer, old(membershipNamer.requests), d, NameOf(d))
      ensures Strings.StartsWith(name, if separateConstantLemmas then ConstantMembershipPrefix else MembershipPrefix(d))
      ensures membershipNamer.requests == old(membershipNamer.requests) + [NamerRequestOf(membershipNamer, d, NameOf(d))]
    {
      if separateConstantLemmas {
        name := ConstantMembershipName(d);
      } else {
        name := MembershipName(d);
      }
    }

    /** The loop of `AddNamedDeclsMembershipLemmas` on a table value. */
    method BuildMembershipLemmas(start: Tables.Table<Declaration, LemmaDecl>, decls: seq<Declaration>, sourceList: Term,
                                 definitions: seq<string>, scheme: IdScheme, useMapOf: bool, separateConstantLemmas: bool)
      returns (r: Result<Tables.Table<Declaration, LemmaDecl>>)
      requires Tables.Valid(start)
      modifies membershipNamer
      ensures r.Err? ==> r.fault == DuplicateKey || (scheme == ByVarId && r.fault == UnexpectedState("Could not retrieve variable id"))
      ensures r.Ok? ==> Tables.ExtendedBy(start, r.value, decls, |decls|,
                                          MembershipCheck(decls, sourceList, definitions, scheme, useMapOf, separateConstantLemmas))
    {
      ghost var check := MembershipCheck(decls, sourceList, definitions, scheme, useMapOf, separateConstantLemmas);
      var table := start;
      Tables.ExtendedByNothing(start, decls, check);
      for i := 0 to |decls|
        invariant Tables.ExtendedBy(start, table, decls, i, check)
      {
        var l := MembershipLemmaOf(decls[i], sourceList, definitions, scheme, useMapOf, separateConstantLemmas);
        if l.Err? {
          return Err(l.fault);
        }
        var t := Tables.Add(table, decls[i], l.value);
        if t.Err? {
          return Err(t.fault);
        }
        assert check(i, l.value);
        Tables.ExtendedByStep(start, table, decls, i, check, l.value);
        table := t.value;
      }
      return Ok(table);
    }

    /**
     * Register one membership lemma per declaration, in order, in the constant table or the
     * membership table. Each states that the declaration occurs in `sourceList`; its proof
     * simplifies with `definitions`, or cites the constant lemma when there are none.
     */
    method AddNamedDeclsMembershipLemmas(decls: seq<Declaration>, sourceList: Term, definitions: seq<string>,
                                         scheme: IdScheme, useMapOf: bool, separateConstantLemmas: bool) returns (o: Outcome)
      requires Valid()
      modifies this`membershipLemmas, this`constantMembershipLemmas, membershipNamer
      ensures Valid()
      ensures !separateConstantLemmas ==> constantMembershipLemmas == old(constantMembershipLemmas)
      ensures separateConstantLemmas ==> membershipLemmas == old(membershipLemmas)
      ensures o.Fail? ==> o.fault == DuplicateKey || (scheme == ByVarId && o.fault == UnexpectedState("Could not retrieve variable id"))
      ensures o.Pass? ==> Tables.ExtendedBy(old(TargetTable(separateConstantLemmas)), TargetTable(separateConstantLemmas), decls, |decls|,
                                            MembershipCheck(decls, sourceList, definitions, scheme, useMapOf, separateConstantLemmas))
    {
      var r := BuildMembershipLemmas(TargetTable(separateConstantLemmas), decls, sourceList, definitions, scheme, useMapOf, separateConstantLemmas);
      if r.Err? {
        return Fail(r.fault);
      }
      if separateConstantLemmas {
        constantMembershipLemmas := r.value;
      } else {
        membershipLemmas := r.value;
      }
      return Pass;
    }

    /** The lookup-type lemma of `v`, citing `membershipLemma`. */
    function LookupVarTyLemmaOf(v: Declaration, name: string, membershipLemma: string): (l: LemmaDecl)
      requires IdOfVar(v).Ok?
    {
      PlainLemma(name, TermBinary(env.term(LookupVarTy, [VarContext(), IdOfVar(v).value]), env.term(SomeOption, [v.isa]), Eq),
                 LookupVarTyProof(membershipLemma))
    }

    /** The membership lemmas the lookup-type lemmas of `vars` cite, one per variable. */
    ghost function Cited(localLookup: bool, vars: seq<Declaration>): (r: seq<Result<string>>)
      requires Linked()
      reads this`membershipLemmas, Ancestors
      ensures |r| == |vars| && forall j :: 0 <= j < |vars| ==> r[j] == CitedMembershipLemma(localLookup, vars[j])
    {
      if |vars| == 0 then [] else Cited(localLookup, vars[..|vars| - 1]) + [CitedMembershipLemma(localLookup, vars[|vars| - 1])]
    }

    /**
     * What the lemma registered for the j-th variable of `vars` is: its type in the variable context
     * is its declared type, proved from disjointness and the membership lemma `cited[j]`.
     */
    ghost function LookupVarTyCheck(vars: seq<Declaration>, cited: seq<Result<string>>): (nat, LemmaDecl) -> bool
    {
      (j: nat, l: LemmaDecl) =>
        j < |vars| && j < |cited| && IdOfVar(vars[j]).Ok? && cited[j].Ok? &&
        l == LookupVarTyLemmaOf(vars[j], l.name, cited[j].value)
    }

    /** The lookup-type lemma of one variable: its id, the membership lemma it cites, then its name. */
    method LookupVarTyLemmaFor(v: Declaration, localLookup: bool) returns (r: Result<LemmaDecl>)
      requires Linked()
      modifies lookupVarTyNamer
      ensures r.Ok? <==> IdOfVar(v).Ok? && old(CitedMembershipLemma(localLookup, v)).Ok?
      ensures r.Ok? ==> r.value == LookupVarTyLemmaOf(v, r.value.name, old(CitedMembershipLemma(localLookup, v)).value)
      ensures r.Err? ==> lookupVarTyNamer.requests == old(lookupVarTyNamer.requests)
      ensures r.Ok? ==>
        r.value.name == NamerAnswer(lookupVarTyNamer, old(lookupVarTyNamer.requests), v, "l_" + NameOf(v)) &&
        lookupVarTyNamer.requests == old(lookupVarTyNamer.requests) + [NamerRequestOf(lookupVarTyNamer, v, "l_" + NameOf(v))]
    {
      var id := IdOfVar(v);
      if id.Err? {
        return Err(id.fault);
      }
      var cited := CitedMembershipLemma(localLookup, v);
      if cited.Err? {
        return Err(cited.fault);
      }
      var name := lookupVarTyNamer.GetName(v, "l_" + NameOf(v));
      return Ok(LookupVarTyLemmaOf(v, name, cited.value));
    }

    /** The loop of `AddLookupVarTyLemmas` on a table value. */
    method BuildLookupVarTyLemmas(start: Tables.Table<Declaration, LemmaDecl>, vars: seq<Declaration>, localLookup: bool,
                                  ghost cited: seq<Result<string>>)
      returns (r: Result<Tables.Table<Declaration, LemmaDecl>>)
      requires Linked() && Tables.Valid(start) && cited == Cited(localLookup, vars)
      modifies lookupVarTyNamer
      ensures r.Ok? ==> Tables.ExtendedBy(start, r.value, vars, |vars|, LookupVarTyCheck(vars, cited))
    {
      var table := start;
      Tables.ExtendedByNothing(start, vars, LookupVarTyCheck(vars, cited));
      for i := 0 to |vars|
        invariant Tables.ExtendedBy(start, table, vars, i, LookupVarTyCheck(vars, cited))
        invariant unchanged(this`membershipLemmas) && unchanged(Ancestors)
      {
        assert cited[i] == CitedMembershipLemma(localLookup, vars[i]);
        var t := AddLookupVarTyLemma(start, table, vars, i, localLookup, cited);
        if t.Err? {
          return t;
        }
        table := t.value;
      }
      return Ok(table);
    }

    /** One iteration of `BuildLookupVarTyLemmas`: the i-th variable's lemma, added to the table. */
    method AddLookupVarTyLemma(start: Tables.Table<Declaration, LemmaDecl>, table: Tables.Table<Declaration, LemmaDecl>,
                               vars: seq<Declaration>, i: nat, localLookup: bool, ghost cited: seq<Result<string>>)
      returns (r: Result<Tables.Table<Declaration, LemmaDecl>>)
      requires Linked() && i < |vars| && i < |cited| && cited[i] == CitedMembershipLemma(localLookup, vars[i])
      requires Tables.ExtendedBy(start, table, vars, i, LookupVarTyCheck(vars, cited))
      modifies lookupVarTyNamer
      ensures r.Ok? ==> Tables.ExtendedBy(start, r.value, vars, i + 1, LookupVarTyCheck(vars, cited))
    {
      var l := LookupVarTyLemmaFor(vars[i], localLookup);
      if l.Err? {
        return Err(l.fault);
      }
      var t := Tables.Add(table, vars[i], l.value);
      if t.Err? {
        return Err(t.fault);
      }
      assert LookupVarTyCheck(vars, cited)(i, l.value);
      Tables.ExtendedByStep(start, table, vars, i, LookupVarTyCheck(vars, cited), l.value);
      return t;
    }

    /** Register the lookup-type lemma of every variable, in order. */
    method AddLookupVarTyLemmas(vars: seq<Declaration>, localLookup: bool) returns (o: Outcome)
      requires Valid()
      modifies this`lookupVarTyLemmas, lookupVarTyNamer
      ensures Valid()
      ensures o.Pass? ==> Tables.ExtendedBy(old(lookupVarTyLemmas), lookupVarTyLemmas, vars, |vars|, LookupVarTyCheck(vars, old(Cited(localLookup, vars))))
    {
      ghost var cited := Cited(localLookup, vars);
      var r := BuildLookupVarTyLemmas(lookupVarTyLemmas, vars, localLookup, cited);
      if r.Err? {
        return Fail(r.fault);
      }
      lookupVarTyLemmas := r.value;
      return Pass;
    }

    /**
     * Register the lemmas of a list of variables of one kind. When membership lemmas are generated
     * here, constants first get their constant lemmas, then every variable its membership lemma; in
     * every case the lookup-type lemmas come last, citing the local lemma or the parent's.
     */
    method AddVariableMembershipLemmas(variables: seq<Declaration>, varKind: VarKind, generateMembershipLemmas: bool) returns (o: Outcome)
      requires Valid()
      modifies this`membershipLemmas, this`constantMembershipLemmas, this`lookupVarTyLemmas, membershipNamer, lookupVarTyNamer
      ensures Valid()
      ensures !generateMembershipLemmas ==>
        membershipLemmas == old(membershipLemmas) && constantMembershipLemmas == old(constantMembershipLemmas)
      ensures o.Pass? && generateMembershipLemmas && varKind == Constant ==>
        Tables.ExtendedBy(old(constantMembershipLemmas), constantMembershipLemmas, variables, |variables|,
                          MembershipCheck(variables, TermIdent(consts), [consts + "_def"], ByVarId, true, true))
      ensures o.Pass? && generateMembershipLemmas ==>
        Tables.ExtendedBy(old(membershipLemmas), membershipLemmas, variables, |variables|,
                          MembershipCheck(variables, SourceListOf(varKind), DefinitionsOf(varKind), ByVarId, true, false))
      ensures o.Pass? ==> Tables.ExtendedBy(old(lookupVarTyLemmas), lookupVarTyLemmas, variables, |variables|,
                                            LookupVarTyCheck(variables, Cited(generateMembershipLemmas, variables)))
    {
      if generateMembershipLemmas {
        if varKind == Constant {
          o := AddNamedDeclsMembershipLemmas(variables, TermIdent(consts), [consts + "_def"], ByVarId, true, true);
          if o.Fail? {
            return;
          }
        }
        o := AddNamedDeclsMembershipLemmas(variables, SourceListOf(varKind), DefinitionsOf(varKind), ByVarId, true, false);
        if o.Fail? {
          return;
        }
      }
      label BeforeLookup:
      o := AddLookupVarTyLemmas(variables, generateMembershipLemmas);
      assert Cited(generateMembershipLemmas, variables) == old@BeforeLookup(Cited(generateMembershipLemmas, variables));
    }

    /** Register the membership lemma of every function, by name, in the functions list. */
    method AddFunctionMembershipLemmas(functions: seq<Declaration>) returns (o: Outcome)
      requires Valid()
      requires forall f :: f in functions ==> f.Function?
      modifies this`membershipLemmas, membershipNamer
      ensures Valid()
      ensures o.Fail? ==> o.fault == DuplicateKey
      ensures o.Pass? ==> Tables.ExtendedBy(old(membershipLemmas), membershipLemmas, functions, |functions|,
                                            MembershipCheck(functions, TermIdent(repr.funcsDeclDef), [repr.funcsDeclDef + "_def"], ByName, true, false))
      ensures o.Pass? && config.generateFunctions ==> forall f :: f in functions ==>
        f in membershipLemmas.entries && MembershipLemma(f) == Ok(Qualify(theoryName, membershipLemmas.entries[f].name))
    {
      var r := BuildMembershipLemmas(membershipLemmas, functions, TermIdent(repr.funcsDeclDef), [repr.funcsDeclDef + "_def"], ByName, true, false);
      if r.Err? {
        return Fail(r.fault);
      }
      membershipLemmas := r.value;
      return Pass;
    }

    /** The membership lemma of the axiom at position `i`: named "ma_i", it states that the axiom is in the set of the axioms list. */
    function AxiomMembershipLemma(i: nat, axiom: Declaration): (l: LemmaDecl)
      ensures l.name == AxiomMembershipName(i)
      ensures l.statement == env.term(Elem, [axiom.isa, env.term(SetOfList, [TermIdent(repr.axiomsDeclDef)])])
      ensures l.proof == ["by (simp add: " + repr.axiomsDeclDef + "_def)"]
    {
      PlainLemma(AxiomMembershipName(i), env.term(Elem, [axiom.isa, env.term(SetOfList, [TermIdent(repr.axiomsDeclDef)])]),
                 ["by (simp add: " + repr.axiomsDeclDef + "_def)"])
    }

    /** What the lemma registered for the j-th axiom of `axioms` is. */
    function AxiomCheck(axioms: seq<Declaration>): (nat, LemmaDecl) -> bool
    {
      (j: nat, l: LemmaDecl) => j < |axioms| && l == AxiomMembershipLemma(j, axioms[j])
    }

    /** The loop of `AddAxiomMembershipLemmas` on a table value, counting the axioms from zero. */
    method BuildAxiomMembershipLemmas(start: Tables.Table<Declaration, LemmaDecl>, axioms: seq<Declaration>)
      returns (r: Result<Tables.Table<Declaration, LemmaDecl>>)
      requires Tables.Valid(start)
      ensures r.Err? ==> r.fault == DuplicateKey
      ensures r.Ok? ==> Tables.ExtendedBy(start, r.value, axioms, |axioms|, AxiomCheck(axioms))
    {
      var table := start;
      var id := 0;
      Tables.ExtendedByNothing(start, axioms, AxiomCheck(axioms));
      for i := 0 to |axioms|
        invariant id == i && Tables.ExtendedBy(start, table, axioms, i, AxiomCheck(axioms))
      {
        var axiom := axioms[i];
        var l := AxiomMembershipLemma(id, axiom);
        var t := Tables.Add(table, axiom, l);
        if t.Err? {
          return Err(t.fault);
        }
        Tables.ExtendedByStep(start, table, axioms, i, AxiomCheck(axioms), l);
        table := t.value;
        id := id + 1;
      }
      return Ok(table);
    }

    /** Register the membership lemma of every axiom, named after its position: "ma_0", "ma_1", ... */
    method AddAxiomMembershipLemmas(axioms: seq<Declaration>) returns (o: Outcome)
      requires Valid()
      modifies this`membershipLemmas
      ensures Valid()
      ensures o.Fail? ==> o.fault == DuplicateKey
      ensures o.Pass? ==> Tables.ExtendedBy(old(membershipLemmas), membershipLemmas, axioms, |axioms|, AxiomCheck(axioms))
    {
      var r := BuildAxiomMembershipLemmas(membershipLemmas, axioms);
      if r.Err? {
        return Fail(r.fault);
      }
      membershipLemmas := r.value;
      return Pass;
    }
  }

  // ---------------------------------------------------------------- properties of the catalog

  /**
   * The references the disjointness proof and the accessors hand out name helper lemmas that exist:
   * `locals_min` and `globals_locals_disj` in this theory, the typing facts exactly when functions are
   * generated here, and `globals_max` in the nearest theory that generates globals.
   */
  lemma HelperReferencesResolve(m: MembershipLemmaManager)
    requires m.Linked()
    ensures LocalsMinName in Names(m.helperLemmas) && GlobalsLocalsDisjName in Names(m.helperLemmas)
    ensures VarContextWfName in Names(m.helperLemmas) <==> m.config.generateFunctions
    ensures FuncsWfName in Names(m.helperLemmas) <==> m.config.generateFunctions
    ensures GlobalsMaxName in Names(m.helperLemmas) <==> m.config.generateGlobalsAndConstants
    ensures m.GlobalsAtMostMax().Ok? ==> exists a :: (a in {m} + m.Ancestors &&
      m.GlobalsAtMostMax().value == Qualify(a.theoryName, GlobalsMaxName) && GlobalsMaxName in Names(a.helperLemmas))
  {
    GlobalsMaxNamed(m.config);
    if m.GlobalsAtMostMax().Ok? {
      GlobalsMaxResolves(m);
    }
  }

  /** `globals_max` is among the expected helper names exactly when globals are generated; the others regardless. */
  lemma GlobalsMaxNamed(config: Config)
    ensures LocalsMinName in ExpectedHelperNames(config) && GlobalsLocalsDisjName in ExpectedHelperNames(config)
    ensures VarContextWfName in ExpectedHelperNames(config) <==> config.generateFunctions
    ensures FuncsWfName in ExpectedHelperNames(config) <==> config.generateFunctions
    ensures GlobalsMaxName in ExpectedHelperNames(config) <==> config.generateGlobalsAndConstants
  {
    var g := if config.generateGlobalsAndConstants then [GlobalsMaxName + "_aux", GlobalsMaxName] else [];
    var l := [LocalsMinName + "_aux", LocalsMinName, GlobalsLocalsDisjName];
    var t := if config.generateFunctions then [FuncsWfName, ConstsWfName, GlobalsWfName, ParamsWfName, LocalsWfName, VarContextWfName] else [];
    assert ExpectedHelperNames(config) == g + l + t;
    assert forall x :: x in g + l + t <==> x in g || x in l || x in t;
    assert VarContextWfName[0] != (LocalsMinName + "_aux")[0];
  }

  /** The `globals_max` reference handed out is the helper lemma of a scope on the chain that has one. */
  lemma GlobalsMaxResolves(m: MembershipLemmaManager)
    requires m.Linked() && m.GlobalsAtMostMax().Ok?
    ensures exists a :: (a in {m} + m.Ancestors &&
      m.GlobalsAtMostMax().value == Qualify(a.theoryName, GlobalsMaxName) && GlobalsMaxName in Names(a.helperLemmas))
    decreases m.depth
  {
    if m.config.generateGlobalsAndConstants {
      GlobalsMaxNamed(m.config);
      assert m in {m} + m.Ancestors;
    } else {
      var p := m.parent.value;
      GlobalsMaxResolves(p);
      var a :| a in {p} + p.Ancestors &&
        p.GlobalsAtMostMax().value == Qualify(a.theoryName, GlobalsMaxName) && GlobalsMaxName in Names(a.helperLemmas);
      assert a in {m} + m.Ancestors;
    }
  }

  /** Scope `k` of `chain` is the first to answer `q` itself. */
  ghost predicate FirstToAnswer(chain: seq<MembershipLemmaManager>, q: Query, k: nat)
    reads chain
  {
    k < |chain| && chain[k].Answers(q) && forall i :: 0 <= i < k ==> !chain[i].Answers(q)
  }

  /** The scopes above a scope are its chain without its first element. */
  lemma ChainOfParent(m: MembershipLemmaManager)
    requires m.Linked() && m.parent.Some?
    ensures m.parent.value.Linked() && m.Chain() == [m] + m.parent.value.Chain()
    ensures forall i :: 0 <= i < |m.parent.value.Chain()| ==> m.parent.value.Chain()[i] == m.Chain()[i + 1]
  {
  }

  /**
   * Delegation reaches the nearest scope that answers: whatever scopes further up have registered,
   * the first scope on the chain that answers `q` itself decides the result with its own tables.
   */
  lemma {:induction false} LookupNearestScope(m: MembershipLemmaManager, q: Query, k: nat)
    requires m.Linked() && FirstToAnswer(m.Chain(), q, k)
    ensures m.Ask(q) == m.Chain()[k].LocalAnswer(q)
    decreases k
  {
    if k > 0 {
      assert !m.Chain()[0].Answers(q);
      var p := m.parent.value;
      ChainOfParent(m);
      assert FirstToAnswer(p.Chain(), q, k - 1);
      LookupNearestScope(p, q, k - 1);
    }
  }

  /** When no scope on the chain answers `q`, the root's missing parent is dereferenced. */
  lemma {:induction false} LookupNoScope(m: MembershipLemmaManager, q: Query)
    requires m.Linked()
    requires forall i :: 0 <= i < |m.Chain()| ==> !m.Chain()[i].Answers(q)
    ensures m.Ask(q) == Err(NullReference)
    decreases m.depth
  {
    assert !m.Chain()[0].Answers(q);
    if m.parent.Some? {
      var p := m.parent.value;
      ChainOfParent(m);
      LookupNoScope(p, q);
    }
  }

  /** The first scope of `chain` that answers `q`, when some scope answers it. */
  lemma FindFirstToAnswer(chain: seq<MembershipLemmaManager>, q: Query, j: nat) returns (k: nat)
    requires j < |chain| && chain[j].Answers(q)
    ensures k <= j && FirstToAnswer(chain, q, k)
  {
    k := 0;
    while !chain[k].Answers(q)
      invariant k <= j && forall i :: 0 <= i < k ==> !chain[i].Answers(q)
      decreases j - k
    {
      k := k + 1;
    }
  }

  /**
   * Both directions of the delegation: a lookup ends in `NullReference` exactly when no scope on
   * the chain answers it, and succeeds exactly when the nearest scope that answers has the entry.
   */
  lemma LookupCharacterized(m: MembershipLemmaManager, q: Query)
    requires m.Linked()
    ensures m.Ask(q) == Err(NullReference) <==> forall i :: 0 <= i < |m.Chain()| ==> !m.Chain()[i].Answers(q)
    ensures m.Ask(q).Ok? <==> exists k: nat :: FirstToAnswer(m.Chain(), q, k) && m.Chain()[k].LocalAnswer(q).Ok?
  {
    if j :| 0 <= j < |m.Chain()| && m.Chain()[j].Answers(q) {
      var k := FindFirstToAnswer(m.Chain(), q, j);
      LookupNearestScope(m, q, k);
      forall k' | FirstToAnswer(m.Chain(), q, k')
        ensures k' == k
      {
      }
    } else {
      LookupNoScope(m, q);
    }
  }

  /** The four blocks of a concatenation, recovered by slicing. */
  lemma Blocks<T>(a: seq<T>, b: seq<T>, c: seq<T>, d: seq<T>)
    ensures (a + b + c + d)[..|a|] == a
    ensures (a + b + c + d)[|a|..|a| + |b|] == b
    ensures (a + b + c + d)[|a| + |b|..|a| + |b| + |c|] == c
    ensures (a + b + c + d)[|a| + |b| + |c|..] == d
  {
    var r := a + b + c + d;
    assert r == a + (b + (c + d));
    assert r[|a|..] == b + (c + d);
    assert r[|a| + |b|..] == c + d;
  }

  /** Every value of a valid table is emitted by `AsDecls(Values(_))`. */
  lemma ValuesEmitted(t: Tables.Table<Declaration, LemmaDecl>, d: Declaration)
    requires Tables.Valid(t) && d in t.entries
    ensures Lemma(t.entries[d]) in AsDecls(Tables.Values(t))
  {
    Tables.ValuesComplete(t, d);
    var i :| 0 <= i < |t.keys| && t.keys[i] == d && Tables.Values(t)[i] == t.entries[d];
    assert AsDecls(Tables.Values(t))[i] == Lemma(t.entries[d]);
  }

  /** Where the blocks of `OuterDecls` end: helper lemmas, then constant lemmas, then membership lemmas. */
  function HelperCount(m: MembershipLemmaManager): nat
  {
    |m.helperLemmas|
  }

  function ConstantEnd(m: MembershipLemmaManager): nat
    reads m
  {
    |m.helperLemmas| + |m.constantMembershipLemmas.keys|
  }

  function MembershipEnd(m: MembershipLemmaManager): nat
    reads m
  {
    |m.helperLemmas| + |m.constantMembershipLemmas.keys| + |m.membershipLemmas.keys|
  }

  /** The helper lemmas open the catalog, and each table's lemmas follow in their own slice. */
  lemma OuterDeclsBlocks(m: MembershipLemmaManager)
    requires m.TablesValid()
    ensures m.OuterDecls()[..HelperCount(m)] == AsDecls(m.helperLemmas)
    ensures m.OuterDecls()[HelperCount(m)..ConstantEnd(m)] == AsDecls(Tables.Values(m.constantMembershipLemmas))
    ensures m.OuterDecls()[ConstantEnd(m)..MembershipEnd(m)] == AsDecls(Tables.Values(m.membershipLemmas))
    ensures m.OuterDecls()[MembershipEnd(m)..] == AsDecls(Tables.Values(m.lookupVarTyLemmas))
  {
    Blocks(AsDecls(m.helperLemmas), AsDecls(Tables.Values(m.constantMembershipLemmas)),
           AsDecls(Tables.Values(m.membershipLemmas)), AsDecls(Tables.Values(m.lookupVarTyLemmas)));
  }

  /**
   * Every registered lemma is emitted by `OuterDecls`, in the block of its table: the helper lemmas
   * first, then constant lemmas, then membership lemmas, then lookup-type lemmas.
   */
  lemma OuterDeclsEmitsEveryLemma(m: MembershipLemmaManager, d: Declaration)
    requires m.TablesValid()
    ensures m.OuterDecls()[..HelperCount(m)] == AsDecls(m.helperLemmas)
    ensures d in m.constantMembershipLemmas.entries ==>
      Lemma(m.constantMembershipLemmas.entries[d]) in m.OuterDecls()[HelperCount(m)..ConstantEnd(m)]
    ensures d in m.membershipLemmas.entries ==>
      Lemma(m.membershipLemmas.entries[d]) in m.OuterDecls()[ConstantEnd(m)..MembershipEnd(m)]
    ensures d in m.lookupVarTyLemmas.entries ==>
      Lemma(m.lookupVarTyLemmas.entries[d]) in m.OuterDecls()[MembershipEnd(m)..]
  {
    OuterDeclsBlocks(m);
    if d in m.constantMembershipLemmas.entries {
      ValuesEmitted(m.constantMembershipLemmas, d);
    }
    if d in m.membershipLemmas.entries {
      ValuesEmitted(m.membershipLemmas, d);
    }
    if d in m.lookupVarTyLemmas.entries {
      ValuesEmitted(m.lookupVarTyLemmas, d);
    }
  }
}
