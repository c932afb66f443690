/**
 * The end-to-end proof assembler: for a passified procedure it emits the VC counterpart of every
 * Boogie function, a correspondence lemma per function, the type-constructor numbering `ctor`, and
 * the final lemma `endToEnd` stating that a run satisfying the VC never reaches a failure state.
 * Terms and proof text are built from foreign helpers (see `Foreign`); the names handed out by the
 * method-local unique namers are a fixed naming of the entities (`NameKey`).
 */
module EndToEndVCProof {
  import opened Wrappers
  import opened IsaAst
  import opened BoogieAst
  import opened Foreign
  import opened Strings
  import Seqs

  // Assumption labels of the final lemma, and the names of the ctor declarations.
  const VcAssmName: string := "VC"
  const ClosedAssmName: string := "Closed"
  const NonEmptyTypesAssmName: string := "NonEmptyTypes"
  const FInterpAssmName: string := "FInterp"
  const AxiomAssmName: string := "Axioms"
  const ParamsLocalsAssmName: string := "ParamsLocal"
  const RedAssmName: string := "Red"
  const CtorDeclListName: string := "ctor_list"
  const CtorName: string := "ctor"
  const QVarContext: string := "?\\<Lambda>"

  /** The entities a fresh namer of this file is asked to name. */
  datatype NameKey =
    | FunKey(fun: string)                 // the Boogie function itself
    | ParamKey(fun: string, index: nat)   // its index-th value parameter
    | TypeVarKey(fun: string, index: nat) // its index-th type parameter
    | ResKey                              // the result variable of a VC function body
    | ZKey                                // the witness of a correspondence proof
    | VcFunIdKey(fun: string)             // the bound id of a VC function in the final lemma

  datatype CastKind = BoxedOfUnboxed | UnboxedOfBoxed | TypeOfBoxed

  datatype TypeCtorDecl = TypeCtorDecl(name: string, arity: nat)

  /** The kinds of axiom the VC generator adds; `expr` identifies the axiom's VC expression. */
  datatype VcAxiomInfo =
    | VcBoogieAxiom(expr: nat)
    | VcFunctionAxiom(expr: nat, fun: Declaration)
    | VarAxiom(expr: nat, vcVar: string)
    | CtorBasicTypeAxiom(expr: nat, ty: BType, ctorValue: int)
    | CtorDeclAxiom(expr: nat, decl: TypeCtorDecl, ctorValue: int)
    | LeftInverseAxiom(expr: nat, projectedIdx: nat, decl: TypeCtorDecl)
    | BasicTypeCastAxiom(expr: nat, ty: BType, castKind: CastKind)
    | OtherAxiom(expr: nat)  // any other subclass: no branch of the dispatch matches it

  /** The procedure's declarations. */
  datatype MethodData = MethodData(functions: seq<FunctionDecl>, inParams: seq<VariableDecl>, locals: seq<VariableDecl>, axioms: seq<AxiomDecl>)

  /** The program accessor: references to the membership lemmas and to the program's declaration lists. */
  datatype Accessor = Accessor(membershipLemma: Declaration -> string, functionsDecl: Term, axiomsDecl: Term, paramsAndLocalsDecl: Term, cfgDecl: Term)

  /**
   * The assembler's read-only state. Besides the inputs, `declIds`/`declTypes` are the bound ids and
   * types the lemma helper gives the variables and VC functions, `vcInst`/`vcAxiomInst` instantiate the
   * VC and its axioms over the bound ids, `vcObjNameRef` names an axiom's VC definition,
   * `translateVcVar` maps a VC variable back to a Boogie variable, `stateCorresName` is the answer of
   * the state-correspondence namer, and `axiomIds` is the axiom numbering (`None` while it is unset).
   */
  datatype Generator = Generator(
    env: Env,
    data: MethodData,
    accessor: Accessor,
    names: NameKey -> string,
    stateCorresName: Declaration -> string,
    vcAxioms: seq<nat>,
    vcAxiomsInfo: seq<VcAxiomInfo>,
    vcObjNameRef: nat -> string,
    vcInst: seq<string> -> Term,
    vcAxiomInst: (nat, seq<string>) -> Term,
    declIds: seq<string>,
    declTypes: seq<TypeIsa>,
    vcFunType: Declaration -> TypeIsa,
    translateVcVar: string -> Option<Declaration>,
    entryLabel: nat,
    axiomIds: Option<map<nat, nat>>)

  // The fixed identifiers of the Boogie context and of the final lemma's states.
  const AbsValTyMap: Term := TermIdent("A")
  const MethodContext: Term := TermIdent("M")
  const VarContext: Term := TermIdent("\\<Lambda>")
  const FunContext: Term := TermIdent("\\<Gamma>")
  const RtypeEnv: Term := TermIdent("\\<Omega>")
  const NormalInitState: Term := TermIdent("n_s")
  const FinalState: Term := TermIdent("s'")
  const FinalNode: Term := TermIdent("m'")

  /* ---------------------------------------------------------------- names */

  /** The VC function of `f`. */
  function VCFunName(f: Declaration): (r: string)
    ensures StartsWith(r, "vc_fun_") && r[7..] == NameOf(f)
  {
    "vc_fun_" + NameOf(f)
  }

  /** The correspondence lemma of `f` (`_ml` for its ML binding). */
  function FunCorresName(f: Declaration, ml: bool): (r: string)
    ensures StartsWith(r, "vc_" + NameOf(f) + "_corres")
    ensures ml <==> |r| == |NameOf(f)| + 13
  {
    "vc_" + NameOf(f) + "_corres" + (if ml then "_ml" else "")
  }

  /** The fact that the function context maps `f` to its abbreviation (`_ml` for its ML binding). */
  function InterpMemName(f: Declaration, ml: bool): (r: string)
    ensures StartsWith(r, "im_" + NameOf(f))
    ensures ml <==> |r| == |NameOf(f)| + 6
  {
    "im_" + NameOf(f) + (if ml then "_ml" else "")
  }

  /** The well-formedness fact of `f`'s interpretation. */
  function WfName(f: Declaration): (r: string)
    ensures StartsWith(r, "i_") && r[2..] == NameOf(f)
  {
    "i_" + NameOf(f)
  }

  /** The abbreviation of `f`'s interpretation inside the final proof. */
  function FunAbbrev(f: Declaration): (r: string)
    ensures |r| == |NameOf(f)| + 1 && r[0] == '?' && r[1..] == NameOf(f)
  {
    "?" + NameOf(f)
  }

  /** The state-correspondence fact of variable `v`. */
  function StateCorresName(g: Generator, v: Declaration): (r: string)
    ensures StartsWith(r, "sc_") && r[3..] == g.stateCorresName(v)
  {
    "sc_" + g.stateCorresName(v)
  }

  /** The ctor lemma of a basic type, named after the type's text. */
  function CtorTypeLemmaName(g: Generator, ty: BType): (r: string)
    ensures StartsWith(r, CtorName + "_") && r[5..] == g.env.typeText(ty)
  {
    CtorName + "_" + g.env.typeText(ty)
  }

  /** The ctor lemma of a type constructor declaration. */
  function CtorDeclLemmaName(decl: TypeCtorDecl): (r: string)
    ensures StartsWith(r, CtorName + "_") && r[5..] == decl.name
  {
    CtorName + "_" + decl.name
  }

  /** Different type constructors get different ctor lemmas. */
  lemma CtorDeclLemmaNamesDistinct(d1: TypeCtorDecl, d2: TypeCtorDecl)
    requires d1.name != d2.name
    ensures CtorDeclLemmaName(d1) != CtorDeclLemmaName(d2)
  {
    assert CtorDeclLemmaName(d1)[5..] == d1.name;
  }

  /* ---------------------------------------------------- shared term builders */

  function SomeTerm(g: Generator, t: Term): Term { g.env.term(SomeOption, [t]) }

  function TheTerm(g: Generator, t: Term): Term { g.env.term(TheOption, [t]) }

  /** The Boogie value of a primitive-typed VC value; other values are used as they are. */
  function ConstructIfPrimitive(g: Generator, t: Term, ty: BType): (r: Term)
    ensures !g.env.isPrimitive(ty) ==> r == t
  {
    if g.env.isPrimitive(ty) then g.env.value(ConstructValue, t, ty) else t
  }

  /** The VC value of a primitive-typed Boogie value; other values are used as they are. */
  function DestructIfPrimitive(g: Generator, t: Term, ty: BType): (r: Term)
    ensures !g.env.isPrimitive(ty) ==> r == t
  {
    if g.env.isPrimitive(ty) then g.env.value(DestructValue, t, ty) else t
  }

  function NameTerm(g: Generator, k: NameKey): Term
  {
    TermIdent(g.names(k))
  }

  /** The identifiers of `f`'s value parameters, in order. */
  function ParamTerms(g: Generator, f: Declaration): (r: seq<Term>)
    requires f.Function?
    ensures |r| == |f.inParams|
    ensures forall i :: 0 <= i < |r| ==> r[i] == NameTerm(g, ParamKey(f.name, i))
  {
    seq(|f.inParams|, i requires 0 <= i < |f.inParams| => NameTerm(g, ParamKey(f.name, i)))
  }

  /** The parameters passed to the Boogie function: primitive-typed ones as Boogie values. */
  function BoogieValueParams(g: Generator, f: Declaration): (r: seq<Term>)
    requires f.Function?
    ensures |r| == |f.inParams|
    ensures forall i :: 0 <= i < |r| ==> r[i] == ConstructIfPrimitive(g, NameTerm(g, ParamKey(f.name, i)), f.inParams[i].ty)
  {
    seq(|f.inParams|, i requires 0 <= i < |f.inParams| => ConstructIfPrimitive(g, NameTerm(g, ParamKey(f.name, i)), f.inParams[i].ty))
  }

  predicate IsExplicit(tp: TypeParam) { !tp.isImplicit }

  predicate IsNonPrimitiveParam(g: Generator, p: Formal) { !g.env.isPrimitive(p.ty) }

  /** The positions of `f`'s explicit type parameters. */
  function ExplicitPositions(f: Declaration): seq<nat>
    requires f.Function?
  {
    Seqs.Positions(f.typeParams, IsExplicit, |f.typeParams|)
  }

  /* --------------------------------------------------------- VC functions */

  /** The closed type standing for `f`'s j-th type parameter: its extractor if implicit, else its name. */
  function ClosedTypeTerm(g: Generator, f: Declaration, j: nat): (r: Term)
    requires f.Function? && j < |f.typeParams|
    ensures IsExplicit(f.typeParams[j]) ==> r == NameTerm(g, TypeVarKey(f.name, j))
  {
    if f.typeParams[j].isImplicit then f.typeParams[j].extractor else NameTerm(g, TypeVarKey(f.name, j))
  }

  /** The explicit type parameters' identifiers, in declaration order. */
  function ExplicitTypeArgs(g: Generator, f: Declaration, n: nat): (r: seq<Term>)
    requires f.Function? && n <= |f.typeParams|
  {
    var ps := Seqs.Positions(f.typeParams, IsExplicit, n);
    seq(|ps|, i requires 0 <= i < |ps| => NameTerm(g, TypeVarKey(f.name, ps[i])))
  }

  /** The left-hand side of the VC function's equation: `A`, the function, explicit type parameters, value parameters. */
  function VcFunArgs(g: Generator, f: Declaration): seq<Term>
    requires f.Function?
  {
    [AbsValTyMap, NameTerm(g, FunKey(f.name))] + ExplicitTypeArgs(g, f, |f.typeParams|) + ParamTerms(g, f)
  }

  /** The type arguments of the Boogie function inside the VC function. */
  function BoogieTyParams(g: Generator, f: Declaration): (r: seq<Term>)
    requires f.Function?
    ensures |r| == |f.typeParams|
  {
    seq(|f.typeParams|, j requires 0 <= j < |f.typeParams| => g.env.term(ClosedToTy, [ClosedTypeTerm(g, f, j)]))
  }

  /** Each type parameter's name with the closed type standing for it. */
  function TypeSubst(g: Generator, f: Declaration): (r: seq<(string, Term)>)
    requires f.Function?
    ensures |r| == |f.typeParams|
  {
    seq(|f.typeParams|, j requires 0 <= j < |f.typeParams| => (f.typeParams[j].name, ClosedTypeTerm(g, f, j)))
  }

  /** The case split of the VC function body on whether the Boogie function reduces. */
  function VcFunBody(g: Generator, f: Declaration): Term
    requires f.Function?
  {
    var funApp := TermApp(NameTerm(g, FunKey(f.name)), [TermList(BoogieTyParams(g, f)), TermList(BoogieValueParams(g, f))]);
    var res := NameTerm(g, ResKey);
    var outTypeIsa := g.env.translateType(f.outType, TypeSubst(g, f));
    var notReduced := g.env.term(ValOfClosedTy, [AbsValTyMap, outTypeIsa]);
    TermCaseOf(funApp, [
      (SomeTerm(g, res), DestructIfPrimitive(g, res, f.outType)),
      (g.env.term(NoneOption, []), DestructIfPrimitive(g, notReduced, f.outType))])
  }

  /** The VC function's arguments are `A`, the function, the explicit type parameters in declaration order, then the value parameters. */
  lemma VcFunArgsOrder(g: Generator, f: Declaration)
    requires f.Function?
    ensures var args := VcFunArgs(g, f); var ps := ExplicitPositions(f); var k := |ps|;
      |args| == 2 + k + |f.inParams| &&
      args[0] == AbsValTyMap && args[1] == NameTerm(g, FunKey(f.name)) &&
      (forall i :: 0 <= i < k ==> args[2 + i] == NameTerm(g, TypeVarKey(f.name, ps[i]))) &&
      (forall i :: 0 <= i < |f.inParams| ==> args[2 + k + i] == NameTerm(g, ParamKey(f.name, i)))
    ensures forall j: nat :: j in ExplicitPositions(f) <==> j < |f.typeParams| && !f.typeParams[j].isImplicit
    ensures forall i, j :: 0 <= i < j < |ExplicitPositions(f)| ==> ExplicitPositions(f)[i] < ExplicitPositions(f)[j]
  {
    Seqs.PositionsExact(f.typeParams, IsExplicit, |f.typeParams|);
  }

  /** Both branches of the VC function body are destructed exactly when the output type is primitive. */
  lemma VcFunBodyShape(g: Generator, f: Declaration)
    requires f.Function?
    ensures var body := VcFunBody(g, f);
      body.TermCaseOf? && |body.cases| == 2 &&
      body.cases[0].0 == SomeTerm(g, NameTerm(g, ResKey)) && body.cases[1].0 == g.env.term(NoneOption, []) &&
      (g.env.isPrimitive(f.outType) ==>
        body.cases[0].1 == g.env.value(DestructValue, NameTerm(g, ResKey), f.outType) &&
        body.cases[1].1 == g.env.value(DestructValue, g.env.term(ValOfClosedTy, [AbsValTyMap, g.env.translateType(f.outType, TypeSubst(g, f))]), f.outType)) &&
      (!g.env.isPrimitive(f.outType) ==>
        body.cases[0].1 == NameTerm(g, ResKey) &&
        body.cases[1].1 == g.env.term(ValOfClosedTy, [AbsValTyMap, g.env.translateType(f.outType, TypeSubst(g, f))]))
  {
  }

  /** The definition of `f`'s VC function: one equation, arguments to body. */
  function VcFunDefinitionDecl(g: Generator, f: Declaration): OuterDecl
    requires f.Function?
  {
    FunDecl(VCFunName(f), None, [(VcFunArgs(g, f), VcFunBody(g, f))])
  }

  /** `VCFunDefinition`: the single-equation definition of `f`'s VC function. */
  method VCFunDefinition(g: Generator, f: Declaration) returns (d: OuterDecl)
    requires f.Function?
    ensures d == VcFunDefinitionDecl(g, f)
  {
    var funTerm := NameTerm(g, FunKey(f.name));
    var argsLhs := [AbsValTyMap, funTerm];
    var vcValueParams: seq<Term> := [];
    var i := 0;
    while i < |f.inParams|
      invariant 0 <= i <= |f.inParams|
      invariant vcValueParams == ParamTerms(g, f)[..i]
    {
      vcValueParams := vcValueParams + [NameTerm(g, ParamKey(f.name, i))];
      i := i + 1;
    }
    var boogieTyParams: seq<Term> := [];
    var typeVarToTerm: seq<(string, Term)> := [];
    var j := 0;
    while j < |f.typeParams|
      invariant 0 <= j <= |f.typeParams|
      invariant argsLhs == [AbsValTyMap, funTerm] + ExplicitTypeArgs(g, f, j)
      invariant boogieTyParams == BoogieTyParams(g, f)[..j]
      invariant typeVarToTerm == TypeSubst(g, f)[..j]
    {
      var typeVarClosedIsa;
      if f.typeParams[j].isImplicit {
        typeVarClosedIsa := f.typeParams[j].extractor;
      } else {
        typeVarClosedIsa := NameTerm(g, TypeVarKey(f.name, j));
        argsLhs := argsLhs + [typeVarClosedIsa];
      }
      boogieTyParams := boogieTyParams + [g.env.term(ClosedToTy, [typeVarClosedIsa])];
      typeVarToTerm := typeVarToTerm + [(f.typeParams[j].name, typeVarClosedIsa)];
      j := j + 1;
    }
    assert vcValueParams == ParamTerms(g, f);
    assert boogieTyParams == BoogieTyParams(g, f);
    assert typeVarToTerm == TypeSubst(g, f);
    argsLhs := argsLhs + vcValueParams;
    var funApp := TermApp(funTerm, [TermList(boogieTyParams), TermList(BoogieValueParams(g, f))]);
    var res := NameTerm(g, ResKey);
    var outTypeIsa := g.env.translateType(f.outType, typeVarToTerm);
    var notReduced := g.env.term(ValOfClosedTy, [AbsValTyMap, outTypeIsa]);
    var body := TermCaseOf(funApp, [
      (SomeTerm(g, res), DestructIfPrimitive(g, res, f.outType)),
      (g.env.term(NoneOption, []), DestructIfPrimitive(g, notReduced, f.outType))]);
    d := FunDecl(VCFunName(f), None, [(argsLhs, body)]);
  }

  /* ------------------------------------------------- correspondence lemmas */

  /** An assumption label: a fixed prefix followed by a position. */
  function IndexedLabel(prefix: string, i: nat): (r: string)
    ensures StartsWith(r, prefix) && |r| > |prefix|
  {
    prefix + NatToString(i)
  }

  /** The label of the closedness assumption of the i-th type parameter. */
  function ClosedLabel(i: nat): string
  {
    IndexedLabel("closed", i)
  }

  /** The label of the type assumption of the i-th value parameter. */
  function TypeOfArgLabel(i: nat): string
  {
    IndexedLabel("typeOfArg", i)
  }

  /** The test that selects the value parameters whose type is not primitive. */
  function NonPrimitive(g: Generator): Formal -> bool
  {
    (p: Formal) => !g.env.isPrimitive(p.ty)
  }

  predicate IsImplicit(tp: TypeParam) { tp.isImplicit }

  /** The positions of `f`'s value parameters of non-primitive type, below `n`. */
  function NonPrimitivePositions(g: Generator, f: Declaration, n: nat): seq<nat>
    requires f.Function? && n <= |f.inParams|
  {
    Seqs.Positions(f.inParams, NonPrimitive(g), n)
  }

  /** The Boogie function's type arguments in the correspondence lemma: one identifier per type parameter. */
  function BoogieTypeParamTerms(g: Generator, f: Declaration): (r: seq<Term>)
    requires f.Function?
    ensures |r| == |f.typeParams|
    ensures forall i :: 0 <= i < |r| ==> r[i] == NameTerm(g, TypeVarKey(f.name, i))
  {
    seq(|f.typeParams|, i requires 0 <= i < |f.typeParams| => NameTerm(g, TypeVarKey(f.name, i)))
  }

  /** The Boogie function applied to its type and value arguments. */
  function BoogieFunctionCall(g: Generator, f: Declaration): Term
    requires f.Function?
  {
    TermApp(NameTerm(g, FunKey(f.name)), [TermList(BoogieTypeParamTerms(g, f)), TermList(BoogieValueParams(g, f))])
  }

  /** The VC function applied to `A`, the function, the explicit type parameters as closed types, and the value parameters. */
  function VcFunctionCall(g: Generator, f: Declaration): Term
    requires f.Function?
  {
    var ps := ExplicitPositions(f);
    var typeArgs := seq(|ps|, i requires 0 <= i < |ps| => g.env.term(TyToClosed, [NameTerm(g, TypeVarKey(f.name, ps[i]))]));
    TermApp(TermIdent(VCFunName(f)), [AbsValTyMap, NameTerm(g, FunKey(f.name))] + typeArgs + ParamTerms(g, f))
  }

  /** The type arguments substituted for the type parameters when translating parameter types. */
  function CorresTypeSubst(g: Generator, f: Declaration): (r: seq<(string, Term)>)
    requires f.Function?
    ensures |r| == |f.typeParams|
  {
    seq(|f.typeParams|, i requires 0 <= i < |f.typeParams| => (f.typeParams[i].name, NameTerm(g, TypeVarKey(f.name, i))))
  }

  /** The typing assumption of the i-th value parameter. */
  function TypeOfArgAssm(g: Generator, f: Declaration, i: nat): Term
    requires f.Function? && i < |f.inParams|
  {
    TermBinary(g.env.term(TypeToVal, [AbsValTyMap, NameTerm(g, ParamKey(f.name, i))]),
      g.env.translateType(f.inParams[i].ty, CorresTypeSubst(g, f)), Eq)
  }

  function TypeOfArgAssms(g: Generator, f: Declaration, n: nat): (r: seq<Term>)
    requires f.Function? && n <= |f.inParams|
    ensures |r| == |NonPrimitivePositions(g, f, n)|
  {
    var ps := NonPrimitivePositions(g, f, n);
    seq(|ps|, k requires 0 <= k < |ps| => TypeOfArgAssm(g, f, ps[k]))
  }

  function TypeOfArgLabels(g: Generator, f: Declaration, n: nat): (r: seq<string>)
    requires f.Function? && n <= |f.inParams|
    ensures |r| == |NonPrimitivePositions(g, f, n)|
  {
    var ps := NonPrimitivePositions(g, f, n);
    seq(|ps|, k requires 0 <= k < |ps| => TypeOfArgLabel(ps[k]))
  }

  function ClosedLabels(n: nat): (r: seq<string>)
    ensures |r| == n && forall i :: 0 <= i < n ==> r[i] == ClosedLabel(i)
  {
    seq(n, i requires 0 <= i < n => ClosedLabel(i))
  }

  function ClosedAssms(g: Generator, f: Declaration): (r: seq<Term>)
    requires f.Function?
    ensures |r| == |f.typeParams|
  {
    seq(|f.typeParams|, i requires 0 <= i < |f.typeParams| => g.env.term(IsClosedType, [NameTerm(g, TypeVarKey(f.name, i))]))
  }

  /** The correspondence lemma's assumption labels: `FInterp`, one `closed<i>` per type parameter, `typeOfArg<i>` per non-primitive value parameter. */
  function CorresLabels(g: Generator, f: Declaration): seq<string>
    requires f.Function?
  {
    [FInterpAssmName] + ClosedLabels(|f.typeParams|) + TypeOfArgLabels(g, f, |f.inParams|)
  }

  /** The assumptions, in the order of their labels. */
  function CorresAssumptions(g: Generator, f: Declaration): (r: seq<Term>)
    requires f.Function?
    ensures |r| == |CorresLabels(g, f)|
  {
    [g.env.term(FunInterpSingleWf, [AbsValTyMap, f.isa, NameTerm(g, FunKey(f.name))])] + ClosedAssms(g, f) + TypeOfArgAssms(g, f, |f.inParams|)
  }

  /** The statement: the Boogie function reduces to the (constructed) value of the VC function. */
  function CorresConclusion(g: Generator, f: Declaration): Term
    requires f.Function?
  {
    TermBinary(BoogieFunctionCall(g, f), SomeTerm(g, ConstructIfPrimitive(g, VcFunctionCall(g, f), f.outType)), Eq)
  }

  /** The proof line showing that the j-th type parameter is given by its extractor. */
  function ExtractorLine(g: Generator, f: Declaration, j: nat): (r: string)
    requires f.Function? && j < |f.typeParams|
    ensures StartsWith(r, if j == 0 then "from " else "moreover from ")
  {
    (if j == 0 then "from " else "moreover from ") +
      g.env.text(SpaceAggregate, TypeOfArgLabels(g, f, |f.inParams|)) + " have " + " \" " +
      g.env.show(TermBinary(NameTerm(g, TypeVarKey(f.name, j)), g.env.term(ClosedToTy, [f.typeParams[j].extractor]), Eq)) + "\"" +
      " using  closed_inv2 " + ClosedLabel(j) + " by auto"
  }

  /** One extractor line per implicit type parameter below `n`, in order. */
  function ExtractorLines(g: Generator, f: Declaration, n: nat): (r: seq<string>)
    requires f.Function? && n <= |f.typeParams|
    ensures |r| == |Seqs.Positions(f.typeParams, IsImplicit, n)|
    decreases n
  {
    if n == 0 then []
    else ExtractorLines(g, f, n - 1) + (if f.typeParams[n - 1].isImplicit then [ExtractorLine(g, f, n - 1)] else [])
  }

  /** The closedness facts of the explicit type parameters below `n`. */
  function ExplicitClosedFacts(f: Declaration, n: nat): string
    requires f.Function? && n <= |f.typeParams|
    decreases n
  {
    if n == 0 then ""
    else ExplicitClosedFacts(f, n - 1) + (if f.typeParams[n - 1].isImplicit then "" else " closed_inv2_2[OF " + ClosedLabel(n - 1) + "]")
  }

  /** The closing step: `ultimately` after several extractor facts, `from this` otherwise; facts cited only when some value parameter is non-primitive. */
  function ShowLine(g: Generator, f: Declaration): (r: string)
    requires f.Function?
    ensures StartsWith(r, if |ExtractorLines(g, f, |f.typeParams|)| > 1 then "ultimately " else "from this ")
  {
    var typeOfValAssms := TypeOfArgLabels(g, f, |f.inParams|);
    (if |ExtractorLines(g, f, |f.typeParams|)| > 1 then "ultimately " else "from this ") + " show ?thesis " +
      (if |typeOfValAssms| > 0 then "using " + g.env.text(SpaceAggregate, typeOfValAssms) + ExplicitClosedFacts(f, |f.typeParams|) else "")
  }

  /** The fixed opening of the correspondence proof: obtain the Boogie result `z` and instantiate the interpretation. */
  function CorresProofOpening(g: Generator, f: Declaration): (r: seq<string>)
    requires f.Function?
    ensures |r| == 7 && r[0] == "proof -"
  {
    var z := g.names(ZKey);
    var typeOfValAssms := TypeOfArgLabels(g, f, |f.inParams|);
    ["proof -",
     "from " + g.env.text(SpaceAggregate, typeOfValAssms) + " " + FInterpAssmName + " obtain " + z + " where W:" +
       g.env.text(Inner, [g.env.show(TermBinary(BoogieFunctionCall(g, f), SomeTerm(g, ConstructIfPrimitive(g, TermIdent(z), f.outType)), Eq))]),
     "  apply (simp only: fun_interp_single_wf.simps) ",
     "  apply (erule allE[where ?x=" + g.env.text(Inner, [g.env.show(TermList(BoogieTypeParamTerms(g, f)))]) + "])",
     "  apply (simp add: " + g.env.text(SpaceAggregate, ClosedLabels(|f.typeParams|)) + ")",
     "  apply (erule allE[where ?x=" + g.env.text(Inner, [g.env.show(TermList(BoogieValueParams(g, f)))]) + "])",
     (if f.outType.BoolType? then "using tbool_boolv" else "") + (if f.outType.IntType? then "using tint_intv" else "") + " by auto"]
  }

  /** The whole correspondence proof: opening, extractor facts, closing step. */
  function CorresProof(g: Generator, f: Declaration): (r: seq<string>)
    requires f.Function?
    ensures |r| == 9 + |Seqs.Positions(f.typeParams, IsImplicit, |f.typeParams|)|
    ensures r[0] == "proof -" && r[|r| - 1] == "by (simp add: W) qed"
  {
    CorresProofOpening(g, f) + ExtractorLines(g, f, |f.typeParams|) + [ShowLine(g, f), "by (simp add: W) qed"]
  }

  /** What stands at position `m` of the labels: `FInterp`, a `closed` label or a `typeOfArg` label. */
  lemma CorresLabelAt(g: Generator, f: Declaration, m: nat)
    requires f.Function? && m < |CorresLabels(g, f)|
    ensures var labels := CorresLabels(g, f); var k := |f.typeParams|;
      (m == 0 ==> labels[m] == FInterpAssmName) &&
      (1 <= m <= k ==> labels[m] == ClosedLabel(m - 1)) &&
      (k < m ==> labels[m] == TypeOfArgLabel(NonPrimitivePositions(g, f, |f.inParams|)[m - 1 - k])) &&
      labels[m][0] == (if m == 0 then 'F' else if m <= k then 'c' else 't')
  {
  }

  /** A non-primitive value parameter has its `typeOfArg` label. */
  lemma TypeOfArgLabelListed(g: Generator, f: Declaration, i: nat)
    requires f.Function? && i < |f.inParams| && !g.env.isPrimitive(f.inParams[i].ty)
    ensures TypeOfArgLabel(i) in CorresLabels(g, f)
  {
    var ps := NonPrimitivePositions(g, f, |f.inParams|);
    Seqs.PositionsExact(f.inParams, NonPrimitive(g), |f.inParams|);
    assert NonPrimitive(g)(f.inParams[i]);
    assert i in ps;
    var m :| 0 <= m < |ps| && ps[m] == i;
    assert CorresLabels(g, f)[1 + |f.typeParams| + m] == TypeOfArgLabel(i);
  }

  /** Only non-primitive value parameters have a `typeOfArg` label. */
  lemma TypeOfArgLabelNonPrimitive(g: Generator, f: Declaration, i: nat)
    requires f.Function? && TypeOfArgLabel(i) in CorresLabels(g, f)
    ensures i < |f.inParams| && !g.env.isPrimitive(f.inParams[i].ty)
  {
    var labels := CorresLabels(g, f);
    var k := |f.typeParams|;
    var ps := NonPrimitivePositions(g, f, |f.inParams|);
    var m :| 0 <= m < |labels| && labels[m] == TypeOfArgLabel(i);
    CorresLabelAt(g, f, m);
    assert TypeOfArgLabel(i)[0] == 't';
    assert k < m;
    IndexedNamesDistinctConverse("typeOfArg", i, ps[m - 1 - k]);
    Seqs.PositionsExact(f.inParams, NonPrimitive(g), |f.inParams|);
    assert ps[m - 1 - k] in ps;
  }

  /** The correspondence lemma's labels: `FInterp`, then `closed0`..`closed(k-1)`, then `typeOfArg<i>` for exactly the non-primitive value parameters. */
  lemma CorresLabelsOrder(g: Generator, f: Declaration)
    requires f.Function?
    ensures var labels := CorresLabels(g, f); var k := |f.typeParams|;
      |labels| == 1 + k + |NonPrimitivePositions(g, f, |f.inParams|)| &&
      labels[0] == FInterpAssmName &&
      (forall i :: 0 <= i < k ==> labels[1 + i] == ClosedLabel(i))
    ensures forall i: nat :: TypeOfArgLabel(i) in CorresLabels(g, f) <==> i < |f.inParams| && !g.env.isPrimitive(f.inParams[i].ty)
  {
    forall i: nat
      ensures TypeOfArgLabel(i) in CorresLabels(g, f) <==> i < |f.inParams| && !g.env.isPrimitive(f.inParams[i].ty)
    {
      if i < |f.inParams| && !g.env.isPrimitive(f.inParams[i].ty) {
        TypeOfArgLabelListed(g, f, i);
      }
      if TypeOfArgLabel(i) in CorresLabels(g, f) {
        TypeOfArgLabelNonPrimitive(g, f, i);
      }
    }
  }

  /** Names made of one prefix and two indices are equal only for equal indices. */
  lemma IndexedNamesDistinctConverse(prefix: string, a: nat, b: nat)
    requires prefix + NatToString(a) == prefix + NatToString(b)
    ensures a == b
  {
    if a != b {
      IndexedNamesDistinct(prefix, a, b);
    }
  }

  /** Labels laid out as `FInterp`, `closed0`..`closed(k-1)`, then `typeOfArg<p>` for increasing `p`, are pairwise different. */
  lemma ShapedLabelsDistinct(labels: seq<string>, k: nat, ps: seq<nat>, i: nat, j: nat)
    requires |labels| == 1 + k + |ps| && labels[0] == FInterpAssmName
    requires forall m :: 0 <= m < k ==> labels[1 + m] == ClosedLabel(m)
    requires forall m :: 0 <= m < |ps| ==> labels[1 + k + m] == TypeOfArgLabel(ps[m])
    requires forall a, b :: 0 <= a < b < |ps| ==> ps[a] < ps[b]
    requires i < j < |labels|
    ensures labels[i] != labels[j]
  {
    if 1 <= i && j <= k {
      assert labels[i] == ClosedLabel(i - 1) && labels[j] == ClosedLabel(j - 1);
      IndexedNamesDistinct("closed", i - 1, j - 1);
    } else if k < i {
      assert labels[i] == TypeOfArgLabel(ps[i - 1 - k]) && labels[j] == TypeOfArgLabel(ps[j - 1 - k]);
      IndexedNamesDistinct("typeOfArg", ps[i - 1 - k], ps[j - 1 - k]);
    } else if i == 0 {
      assert labels[j][0] != 'F' by {
        if j <= k {
          assert labels[j] == ClosedLabel(j - 1);
        } else {
          assert labels[j] == TypeOfArgLabel(ps[j - 1 - k]);
        }
      }
    } else {
      assert labels[i] == ClosedLabel(i - 1) && labels[j] == TypeOfArgLabel(ps[j - 1 - k]);
      assert labels[i][0] == 'c' && labels[j][0] == 't';
    }
  }

  /** No two assumptions of a correspondence lemma share a label. */
  lemma CorresLabelsDistinct(g: Generator, f: Declaration)
    requires f.Function?
    ensures var labels := CorresLabels(g, f);
      forall i, j :: 0 <= i < j < |labels| ==> labels[i] != labels[j]
  {
    var labels := CorresLabels(g, f);
    var k := |f.typeParams|;
    var ps := NonPrimitivePositions(g, f, |f.inParams|);
    CorresLabelAt(g, f, 0);
    forall m | 0 <= m < k
      ensures labels[1 + m] == ClosedLabel(m)
    {
      CorresLabelAt(g, f, 1 + m);
    }
    forall m | 0 <= m < |ps|
      ensures labels[1 + k + m] == TypeOfArgLabel(ps[m])
    {
      CorresLabelAt(g, f, 1 + k + m);
    }
    Seqs.PositionsExact(f.inParams, NonPrimitive(g), |f.inParams|);
    forall i, j | 0 <= i < j < |labels|
      ensures labels[i] != labels[j]
    {
      ShapedLabelsDistinct(labels, k, ps, i, j);
    }
  }

  /** The correspondence lemma of `f`. */
  function CorresLemma(g: Generator, f: Declaration): LemmaDecl
    requires f.Function?
  {
    LemmaDecl(FunCorresName(f, false), CorresAssumptions(g, f), CorresLabels(g, f), CorresConclusion(g, f), CorresProof(g, f))
  }

  /** `FunCorres`: the lemma that the Boogie function reduces to the value of its VC function. */
  method FunCorres(g: Generator, f: Declaration) returns (l: LemmaDecl)
    requires f.Function?
    ensures l == CorresLemma(g, f)
  {
    var assms := [g.env.term(FunInterpSingleWf, [AbsValTyMap, f.isa, NameTerm(g, FunKey(f.name))])];
    var assmLabels := [FInterpAssmName];
    var closedAssmLabels;
    assms, assmLabels, closedAssmLabels := AppendClosedAssms(g, f, assms, assmLabels);
    var typeOfValAssms;
    assms, assmLabels, typeOfValAssms := AppendTypeOfArgAssms(g, f, assms, assmLabels);
    var proofMethodsExtractors, explicitTypeVarAssms := ExtractorsOf(g, f);
    var proofMethods := CorresProofOpening(g, f) + proofMethodsExtractors + [ShowLine(g, f), "by (simp add: W) qed"];
    l := LemmaDecl(FunCorresName(f, false), assms, assmLabels, CorresConclusion(g, f), proofMethods);
  }

  /** The closedness assumption of each type parameter, appended to `assms0`, with its label appended to `labels0`. */
  method AppendClosedAssms(g: Generator, f: Declaration, assms0: seq<Term>, labels0: seq<string>)
    returns (assms: seq<Term>, labels: seq<string>, closedLabels: seq<string>)
    requires f.Function?
    ensures assms == assms0 + ClosedAssms(g, f)
    ensures closedLabels == ClosedLabels(|f.typeParams|) && labels == labels0 + closedLabels
  {
    var boogieTypeParams := BoogieTypeParamTerms(g, f);
    assms, labels, closedLabels := assms0, labels0, [];
    var closedIdx := 0;
    while closedIdx < |boogieTypeParams|
      invariant 0 <= closedIdx <= |boogieTypeParams|
      invariant assms == assms0 + ClosedAssms(g, f)[..closedIdx]
      invariant closedLabels == ClosedLabels(|f.typeParams|)[..closedIdx]
      invariant labels == labels0 + closedLabels
    {
      assms := assms + [g.env.term(IsClosedType, [boogieTypeParams[closedIdx]])];
      labels := labels + [ClosedLabel(closedIdx)];
      closedLabels := closedLabels + [ClosedLabel(closedIdx)];
      closedIdx := closedIdx + 1;
    }
    assert ClosedAssms(g, f)[..closedIdx] == ClosedAssms(g, f);
    assert ClosedLabels(|f.typeParams|)[..closedIdx] == ClosedLabels(|f.typeParams|);
  }

  /** The typing assumption of each non-primitive value parameter, appended to `assms0`, with its label appended to `labels0`. */
  method AppendTypeOfArgAssms(g: Generator, f: Declaration, assms0: seq<Term>, labels0: seq<string>)
    returns (assms: seq<Term>, labels: seq<string>, typeOfValAssms: seq<string>)
    requires f.Function?
    ensures assms == assms0 + TypeOfArgAssms(g, f, |f.inParams|)
    ensures typeOfValAssms == TypeOfArgLabels(g, f, |f.inParams|) && labels == labels0 + typeOfValAssms
  {
    assms, labels, typeOfValAssms := assms0, labels0, [];
    var idx := 0;
    while idx < |f.inParams|
      invariant 0 <= idx <= |f.inParams|
      invariant assms == assms0 + TypeOfArgAssms(g, f, idx)
      invariant typeOfValAssms == TypeOfArgLabels(g, f, idx)
      invariant labels == labels0 + typeOfValAssms
    {
      if !g.env.isPrimitive(f.inParams[idx].ty) {
        assms := assms + [TypeOfArgAssm(g, f, idx)];
        labels := labels + [TypeOfArgLabel(idx)];
        typeOfValAssms := typeOfValAssms + [TypeOfArgLabel(idx)];
      }
      idx := idx + 1;
    }
  }

  /** The extractor facts of the implicit type parameters, and the closedness facts of the explicit ones. */
  method ExtractorsOf(g: Generator, f: Declaration) returns (extractors: seq<string>, explicitTypeVarAssms: string)
    requires f.Function?
    ensures extractors == ExtractorLines(g, f, |f.typeParams|)
    ensures explicitTypeVarAssms == ExplicitClosedFacts(f, |f.typeParams|)
  {
    extractors, explicitTypeVarAssms := [], "";
    var j := 0;
    while j < |f.typeParams|
      invariant 0 <= j <= |f.typeParams|
      invariant extractors == ExtractorLines(g, f, j)
      invariant explicitTypeVarAssms == ExplicitClosedFacts(f, j)
    {
      if f.typeParams[j].isImplicit {
        extractors := extractors + [ExtractorLine(g, f, j)];
      } else {
        explicitTypeVarAssms := explicitTypeVarAssms + " closed_inv2_2[OF " + ClosedLabel(j) + "]";
      }
      j := j + 1;
    }
  }

  /* ------------------------------------------------------------------ ctor */

  const CtorFunTerm: Term := TermIdent(CtorName)

  predicate IsIntOrBool(ty: BType) { ty.IntType? || ty.BoolType? }

  /** The closed primitive type of `int` or `bool`. */
  function PrimTypeTerm(g: Generator, ty: BType): Term
    requires IsIntOrBool(ty)
  {
    g.env.term(PrimType, [g.env.term(if ty.IntType? then IntTypeTerm else BoolTypeTerm, [])])
  }

  /** `ctor` of a basic type is its ctor value, by simplification. */
  function BasicTypeCtorLemma(g: Generator, ty: BType, ctorValue: int): (r: LemmaDecl)
    requires IsIntOrBool(ty)
    ensures r.name == CtorTypeLemmaName(g, ty) && r.assumptions == [] && r.proof == ["by simp"]
    ensures r.statement == TermBinary(TermApp(CtorFunTerm, [PrimTypeTerm(g, ty)]), IntConst(ctorValue), Eq)
  {
    PlainLemma(CtorTypeLemmaName(g, ty), TermBinary(TermApp(CtorFunTerm, [PrimTypeTerm(g, ty)]), IntConst(ctorValue), Eq), ["by simp"])
  }

  /** The bound variables `t1`..`tn` of a type constructor's ctor lemma. */
  function CtorArgNames(arity: nat): (r: seq<string>)
    ensures |r| == arity
    ensures forall i, j :: 0 <= i < j < arity ==> r[i] != r[j]
  {
    var r := seq(arity, i requires 0 <= i < arity => "t" + NatToString(i + 1));
    assert forall i, j :: 0 <= i < j < arity ==> r[i] != r[j] by {
      forall i, j | 0 <= i < j < arity
        ensures r[i] != r[j]
      {
        IndexedNamesDistinct("t", i + 1, j + 1);
      }
    }
    r
  }

  /** `ctor` of a type constructor applied to `t1`..`tn` is its ctor value; quantified only when n > 0. */
  function DeclCtorLemma(g: Generator, d: TypeCtorDecl, ctorValue: int): (r: LemmaDecl)
    ensures r.name == CtorDeclLemmaName(d) && r.assumptions == []
    ensures r.proof == ["by " + g.env.text(Simp, [CtorDeclListName + "_def"])]
    ensures r.statement.TermQuantifier? <==> d.arity > 0
    ensures r.statement.TermQuantifier? ==> r.statement.quant == ForAll && r.statement.boundVars == CtorArgNames(d.arity)
  {
    var ids := CtorArgNames(d.arity);
    var args := seq(|ids|, i requires 0 <= i < |ids| => TermIdent(ids[i]));
    var body := TermBinary(TermApp(CtorFunTerm, [TermApp(g.env.term(VCTypeConstructor, [StringConst(d.name), NatConst(d.arity)]), args)]), IntConst(ctorValue), Eq);
    PlainLemma(CtorDeclLemmaName(d), if |ids| > 0 then TermQuantifier(ForAll, ids, None, body) else body,
      ["by " + g.env.text(Simp, [CtorDeclListName + "_def"])])
  }

  /** What `ctorFun` collects: equations of `ctor`, entries of `ctor_list`, ctor lemmas. */
  datatype CtorParts = CtorParts(equations: seq<Equation>, ctorList: seq<Term>, lemmas: seq<OuterDecl>)

  predicate IsCtorAxiom(ax: VcAxiomInfo) { ax.CtorBasicTypeAxiom? || ax.CtorDeclAxiom? }

  /** A basic-type ctor axiom on a type other than int and bool, which `ctorFun` does not implement. */
  predicate IsUnsupportedCtor(ax: VcAxiomInfo) { ax.CtorBasicTypeAxiom? && !IsIntOrBool(ax.ty) }

  /** The contribution of one VC axiom to `ctorFun`. */
  function CtorContribution(g: Generator, ax: VcAxiomInfo): (r: Result<CtorParts>)
    ensures r.Err? <==> IsUnsupportedCtor(ax)
    ensures r.Err? ==> r.fault == NotImplemented
    ensures r.Ok? ==> |r.value.lemmas| == (if IsCtorAxiom(ax) then 1 else 0)
    ensures r.Ok? && ax.CtorBasicTypeAxiom? ==> (|r.value.equations| == 1 && r.value.ctorList == [] &&
      r.value.lemmas == [Lemma(BasicTypeCtorLemma(g, ax.ty, ax.ctorValue))])
    ensures r.Ok? && ax.CtorDeclAxiom? ==> (r.value.equations == [] &&
      r.value.ctorList == [TermTuple([StringConst(ax.decl.name), IntConst(ax.ctorValue)])] &&
      r.value.lemmas == [Lemma(DeclCtorLemma(g, ax.decl, ax.ctorValue))])
    ensures r.Ok? && !IsCtorAxiom(ax) ==> r.value == CtorParts([], [], [])
  {
    match ax
    case CtorBasicTypeAxiom(_, ty, v) =>
      if IsIntOrBool(ty) then
        Ok(CtorParts([([PrimTypeTerm(g, ty)], IntConst(v))], [], [Lemma(BasicTypeCtorLemma(g, ty, v))]))
      else Err(NotImplemented)
    case CtorDeclAxiom(_, d, v) =>
      Ok(CtorParts([], [TermTuple([StringConst(d.name), IntConst(v)])], [Lemma(DeclCtorLemma(g, d, v))]))
    case _ => Ok(CtorParts([], [], []))
  }

  function JoinParts(a: CtorParts, b: CtorParts): CtorParts
  {
    CtorParts(a.equations + b.equations, a.ctorList + b.ctorList, a.lemmas + b.lemmas)
  }

  /** The contributions of the VC axioms, in order; the first unsupported axiom aborts. */
  function CtorPartsOf(g: Generator, axs: seq<VcAxiomInfo>): Result<CtorParts>
    decreases |axs|
  {
    if |axs| == 0 then Ok(CtorParts([], [], []))
    else
      var pre := CtorPartsOf(g, axs[..|axs| - 1]);
      var last := CtorContribution(g, axs[|axs| - 1]);
      if pre.Err? then pre else if last.Err? then Err(last.fault) else Ok(JoinParts(pre.value, last.value))
  }

  /** The catch-all equation of `ctor`: a declared constructor's value is looked up in `ctor_list`. */
  function CatchAllEquation(g: Generator): Equation
  {
    ([TermIdent("(TConC s _)")], TheTerm(g, TermApp(TermIdent("map_of"), [TermIdent(CtorDeclListName), TermIdent("s")])))
  }

  /** The output of `ctorFun`: the `ctor_list` definition, the `ctor` function, then the ctor lemmas. */
  function CtorDecls(g: Generator, p: CtorParts): (r: seq<OuterDecl>)
    ensures |r| == 2 + |p.lemmas| && r[2..] == p.lemmas
  {
    [DefDecl(CtorDeclListName, ([], TermList(p.ctorList))),
     FunDecl(CtorName, Some(ArrowType(g.env.isaType(BoogieClosedType), PrimitiveType(IntT))), p.equations + [CatchAllEquation(g)])] + p.lemmas
  }

  function CtorFunResult(g: Generator, axs: seq<VcAxiomInfo>): Result<seq<OuterDecl>>
  {
    var parts := CtorPartsOf(g, axs);
    if parts.Err? then Err(parts.fault) else Ok(CtorDecls(g, parts.value))
  }

  /** `ctorFun` fails exactly when some basic-type ctor axiom is on a type other than int and bool. */
  lemma {:induction false} CtorFunFails(g: Generator, axs: seq<VcAxiomInfo>)
    ensures CtorPartsOf(g, axs).Err? <==> exists i :: 0 <= i < |axs| && IsUnsupportedCtor(axs[i])
    ensures CtorPartsOf(g, axs).Err? ==> CtorPartsOf(g, axs).fault == NotImplemented
    decreases |axs|
  {
    if |axs| > 0 {
      var init := axs[..|axs| - 1];
      CtorFunFails(g, init);
      if exists i :: 0 <= i < |init| && IsUnsupportedCtor(init[i]) {
        var i :| 0 <= i < |init| && IsUnsupportedCtor(init[i]);
        assert axs[i] == init[i];
      }
      if exists i :: 0 <= i < |axs| && IsUnsupportedCtor(axs[i]) {
        var i :| 0 <= i < |axs| && IsUnsupportedCtor(axs[i]);
        if i < |init| {
          assert init[i] == axs[i];
        }
      }
    }
  }

  /** Every ctor axiom yields exactly one lemma, in order; the catch-all equation of `ctor` comes last. */
  lemma {:induction false} CtorFunShape(g: Generator, axs: seq<VcAxiomInfo>)
    requires CtorPartsOf(g, axs).Ok?
    ensures var p := CtorPartsOf(g, axs).value; var r := CtorDecls(g, p);
      |p.lemmas| == |Seqs.Positions(axs, IsCtorAxiom, |axs|)| &&
      r[0] == DefDecl(CtorDeclListName, ([], TermList(p.ctorList))) &&
      r[1].FunDecl? && r[1].name == CtorName && |r[1].equations| == |p.equations| + 1 &&
      r[1].equations[|r[1].equations| - 1] == CatchAllEquation(g)
    decreases |axs|
  {
    if |axs| > 0 {
      var init := axs[..|axs| - 1];
      CtorFunShape(g, init);
      Seqs.PositionsPrefix(axs, init, IsCtorAxiom, |init|);
    }
  }

  /** `ctorFun`: one pass over the VC axioms collecting equations, ctor-list entries and lemmas. */
  method CtorFun(g: Generator, axs: seq<VcAxiomInfo>) returns (r: Result<seq<OuterDecl>>)
    ensures r == CtorFunResult(g, axs)
  {
    var funEquations: seq<Equation> := [];
    var typeConstrCtorList: seq<Term> := [];
    var lemmas: seq<OuterDecl> := [];
    var i := 0;
    while i < |axs|
      invariant 0 <= i <= |axs|
      invariant CtorPartsOf(g, axs[..i]) == Ok(CtorParts(funEquations, typeConstrCtorList, lemmas))
    {
      assert axs[..i + 1][..i] == axs[..i];
      ghost var before := CtorParts(funEquations, typeConstrCtorList, lemmas);
      assert CtorPartsOf(g, axs[..i + 1]) == if CtorContribution(g, axs[i]).Err? then Err(NotImplemented)
        else Ok(JoinParts(before, CtorContribution(g, axs[i]).value));
      match axs[i] {
      case CtorBasicTypeAxiom(_, ty, v) =>
        if ty.IntType? || ty.BoolType? {
          assert CtorContribution(g, axs[i]) == Ok(CtorParts([([PrimTypeTerm(g, ty)], IntConst(v))], [], [Lemma(BasicTypeCtorLemma(g, ty, v))]));
          funEquations := funEquations + [([PrimTypeTerm(g, ty)], IntConst(v))];
          lemmas := lemmas + [Lemma(BasicTypeCtorLemma(g, ty, v))];
        } else {
          assert CtorPartsOf(g, axs[..i + 1]).Err?;
          CtorFunFails(g, axs);
          assert IsUnsupportedCtor(axs[i]);
          return Err(NotImplemented);
        }
      case CtorDeclAxiom(_, d, v) =>
        typeConstrCtorList := typeConstrCtorList + [TermTuple([StringConst(d.name), IntConst(v)])];
        lemmas := lemmas + [Lemma(DeclCtorLemma(g, d, v))];
      case _ =>
        assert CtorContribution(g, axs[i]) == Ok(CtorParts([], [], []));
      }
      assert CtorContribution(g, axs[i]).Ok?;
      assert CtorParts(funEquations, typeConstrCtorList, lemmas) == JoinParts(before, CtorContribution(g, axs[i]).value);
      i := i + 1;
    }
    assert axs[..i] == axs;
    r := Ok(CtorDecls(g, CtorParts(funEquations, typeConstrCtorList, lemmas)));
  }

  /* -------------------------------------------------- VC axiom proof steps */

  /** The lemma discharging a cast axiom of int or bool. */
  function CastLemmaName(isBool: bool, kind: CastKind): (r: string)
    ensures StartsWith(r, if isBool then "bool_" else "int_")
  {
    match kind
    case BoxedOfUnboxed => if isBool then "bool_inverse_1" else "int_inverse_1"
    case UnboxedOfBoxed => if isBool then "bool_inverse_2" else "int_inverse_2"
    case TypeOfBoxed => if isBool then "bool_type" else "int_type"
  }

  /** The six cast lemmas are pairwise different. */
  lemma CastLemmaNamesDistinct(b1: bool, k1: CastKind, b2: bool, k2: CastKind)
    requires (b1, k1) != (b2, k2)
    ensures CastLemmaName(b1, k1) != CastLemmaName(b2, k2)
  {
    var r1, r2 := CastLemmaName(b1, k1), CastLemmaName(b2, k2);
    if b1 != b2 {
      assert r1[0] != r2[0];
    } else if b1 {
      assert r1[5..] != r2[5..];
    } else {
      assert r1[4..] != r2[4..];
    }
  }

  /** The VC axioms the proof script cannot discharge. */
  predicate IsFatalAxiom(g: Generator, ax: VcAxiomInfo)
  {
    ax.VcBoogieAxiom? ||
    (ax.VarAxiom? && g.translateVcVar(ax.vcVar).None?) ||
    (ax.BasicTypeCastAxiom? && !IsIntOrBool(ax.ty))
  }

  function UnfoldingLine(g: Generator, ax: VcAxiomInfo): string
  {
    "unfolding " + g.vcObjNameRef(ax.expr) + "_def"
  }

  function Apply(g: Generator, s: string): string { g.env.text(Foreign.Apply, [s]) }

  /** The proof lines of one VC axiom: the unfolding line, then the step fixed by the axiom's kind. */
  function AxiomProofStep(g: Generator, ax: VcAxiomInfo): (r: Result<seq<string>>)
    ensures r.Err? <==> IsFatalAxiom(g, ax)
    ensures r.Err? && ax.VcBoogieAxiom? ==> r.fault == NotImplemented
    ensures r.Err? && !ax.VcBoogieAxiom? ==> r.fault.UnexpectedState?
    ensures r.Ok? ==> 1 <= |r.value| && r.value[0] == UnfoldingLine(g, ax) && (|r.value| == 1 <==> ax.OtherAxiom?)
    ensures r.Ok? && ax.BasicTypeCastAxiom? ==> r.value == [UnfoldingLine(g, ax), Apply(g, "rule " + CastLemmaName(ax.ty.BoolType?, ax.castKind))]
    ensures r.Ok? && ax.CtorBasicTypeAxiom? ==> r.value == [UnfoldingLine(g, ax), Apply(g, "rule " + CtorTypeLemmaName(g, ax.ty))]
    ensures r.Ok? && ax.CtorDeclAxiom? ==> r.value == [UnfoldingLine(g, ax), Apply(g, "rule " + CtorDeclLemmaName(ax.decl))]
  {
    var unfolding := UnfoldingLine(g, ax);
    match ax
    case VcBoogieAxiom(_) => Err(NotImplemented)
    case VcFunctionAxiom(_, fn) =>
      Ok([unfolding,
          Apply(g, "fun_output_axiom NonEmptyTypes: " + NonEmptyTypesAssmName),
          "using closed_inv1 " +
            g.env.text(OF, ["finterp_extract_2", FInterpAssmName, g.accessor.membershipLemma(fn), InterpMemName(fn, false)]) + " " +
            Apply(g, "simp")])
    case VarAxiom(_, x) =>
      if g.translateVcVar(x).Some? then
        Ok([unfolding, Apply(g, g.env.text(Simp, [g.env.text(OF, ["HOL.conjunct2", StateCorresName(g, g.translateVcVar(x).value)])]))])
      else Err(UnexpectedState("Can't translate vc variable to Boogie variable"))
    case CtorBasicTypeAxiom(_, ty, _) => Ok([unfolding, Apply(g, "rule " + CtorTypeLemmaName(g, ty))])
    case CtorDeclAxiom(_, d, _) => Ok([unfolding, Apply(g, "rule " + CtorDeclLemmaName(d))])
    case LeftInverseAxiom(_, idx, d) =>
      Ok([unfolding, Apply(g, "rule " + g.env.text(LeftInvLemmaName, [NatToString(idx), NatToString(d.arity)]))])
    case BasicTypeCastAxiom(_, ty, kind) =>
      if !IsIntOrBool(ty) then Err(UnexpectedState("only support int and bools as built-in types"))
      else Ok([unfolding, Apply(g, "rule " + CastLemmaName(ty.BoolType?, kind))])
    case OtherAxiom(_) => Ok([unfolding])
  }

  /** The proof lines of all VC axioms, in order; the first fatal axiom aborts. */
  function AxiomProofLines(g: Generator, axs: seq<VcAxiomInfo>): Result<seq<string>>
    decreases |axs|
  {
    if |axs| == 0 then Ok([])
    else
      var pre := AxiomProofLines(g, axs[..|axs| - 1]);
      var last := AxiomProofStep(g, axs[|axs| - 1]);
      if pre.Err? then pre else if last.Err? then Err(last.fault) else Ok(pre.value + last.value)
  }

  /** The axiom proof fails exactly when one of the VC axioms is of a fatal kind. */
  lemma {:induction false} AxiomProofFails(g: Generator, axs: seq<VcAxiomInfo>)
    ensures AxiomProofLines(g, axs).Err? <==> exists i :: 0 <= i < |axs| && IsFatalAxiom(g, axs[i])
    decreases |axs|
  {
    if |axs| > 0 {
      var init := axs[..|axs| - 1];
      AxiomProofFails(g, init);
      if exists i :: 0 <= i < |init| && IsFatalAxiom(g, init[i]) {
        var i :| 0 <= i < |init| && IsFatalAxiom(g, init[i]);
        assert axs[i] == init[i];
      }
      if exists i :: 0 <= i < |axs| && IsFatalAxiom(g, axs[i]) {
        var i :| 0 <= i < |axs| && IsFatalAxiom(g, axs[i]);
        if i < |init| {
          assert init[i] == axs[i];
        }
      }
    }
  }

  /** `AppendVcAxiomsProof`: appends the proof lines of every VC axiom to `sb`. */
  method AppendVcAxiomsProof(g: Generator, axs: seq<VcAxiomInfo>, sb: seq<string>) returns (r: Result<seq<string>>)
    ensures AxiomProofLines(g, axs).Err? ==> r == Err(AxiomProofLines(g, axs).fault)
    ensures AxiomProofLines(g, axs).Ok? ==> r == Ok(sb + AxiomProofLines(g, axs).value)
  {
    var lines := sb;
    var i := 0;
    while i < |axs|
      invariant 0 <= i <= |axs|
      invariant AxiomProofLines(g, axs[..i]).Ok? && lines == sb + AxiomProofLines(g, axs[..i]).value
    {
      assert axs[..i + 1][..i] == axs[..i];
      var step := AxiomProofStep(g, axs[i]);
      if step.Err? {
        AxiomProofFails(g, axs);
        assert IsFatalAxiom(g, axs[i]);
        AxiomProofFailsAt(g, axs, i);
        return Err(step.fault);
      }
      lines := lines + step.value;
      i := i + 1;
    }
    assert axs[..i] == axs;
    r := Ok(lines);
  }

  /** When the steps before position `i` succeed and step `i` fails, the whole proof fails with step `i`'s fault. */
  lemma {:induction false} AxiomProofFailsAt(g: Generator, axs: seq<VcAxiomInfo>, i: nat)
    requires i < |axs| && AxiomProofLines(g, axs[..i]).Ok? && AxiomProofStep(g, axs[i]).Err?
    ensures AxiomProofLines(g, axs) == Err(AxiomProofStep(g, axs[i]).fault)
    decreases |axs|
  {
    if i < |axs| - 1 {
      var init := axs[..|axs| - 1];
      assert init[..i] == axs[..i];
      AxiomProofFailsAt(g, init, i);
    } else {
      assert axs[..|axs| - 1] == axs[..i];
    }
  }

  /* ------------------------------------------------------------ final lemma */

  /** The bound ids of the VC: the lemma helper's ids, then one id per Boogie function. */
  function VcDeclIds(g: Generator): (r: seq<string>)
    ensures |r| == |g.declIds| + |g.data.functions| && r[..|g.declIds|] == g.declIds
    ensures forall i :: 0 <= i < |g.data.functions| ==> r[|g.declIds| + i] == g.names(VcFunIdKey(g.data.functions[i].name))
  {
    g.declIds + seq(|g.data.functions|, i requires 0 <= i < |g.data.functions| => g.names(VcFunIdKey(g.data.functions[i].name)))
  }

  /** The types of the bound ids, in the same order. */
  function VcDeclTypes(g: Generator): (r: seq<TypeIsa>)
    ensures |r| == |g.declTypes| + |g.data.functions|
  {
    g.declTypes + seq(|g.data.functions|, i requires 0 <= i < |g.data.functions| => g.vcFunType(g.data.functions[i]))
  }

  function Reverse<T>(xs: seq<T>): (r: seq<T>)
    ensures |r| == |xs| && forall i :: 0 <= i < |xs| ==> r[i] == xs[|xs| - 1 - i]
  {
    seq(|xs|, i requires 0 <= i < |xs| => xs[|xs| - 1 - i])
  }

  /** The fold of the source: each premise in turn becomes the premise of what was built so far. */
  function AggregateImp(acc: Term, premises: seq<Term>): Term
    decreases |premises|
  {
    if |premises| == 0 then acc else AggregateImp(TermBinary(premises[0], acc, MetaImp), premises[1..])
  }

  /** `concl` under the premises, the first one outermost. */
  function Premised(premises: seq<Term>, concl: Term): Term
    decreases |premises|
  {
    if |premises| == 0 then concl else TermBinary(premises[0], Premised(premises[1..], concl), MetaImp)
  }

  lemma {:induction false} PremisedSnoc(premises: seq<Term>, last: Term, concl: Term)
    ensures Premised(premises + [last], concl) == Premised(premises, TermBinary(last, concl, MetaImp))
    decreases |premises|
  {
    if |premises| > 0 {
      assert (premises + [last])[1..] == premises[1..] + [last];
      PremisedSnoc(premises[1..], last, concl);
    }
  }

  /** Folding the reversed axioms chains them in their original order, the first axiom outermost. */
  lemma {:induction false} AggregateChainsInOrder(premises: seq<Term>, concl: Term)
    ensures AggregateImp(concl, Reverse(premises)) == Premised(premises, concl)
    decreases |premises|
  {
    if |premises| > 0 {
      var init, last := premises[..|premises| - 1], premises[|premises| - 1];
      assert Reverse(premises)[1..] == Reverse(init);
      AggregateChainsInOrder(init, TermBinary(last, concl, MetaImp));
      PremisedSnoc(init, last, concl);
      assert init + [last] == premises;
    }
  }

  /** The VC axioms instantiated over the bound ids, in their original order. */
  function VcAxiomTerms(g: Generator, ids: seq<string>): (r: seq<Term>)
    ensures |r| == |g.vcAxioms|
  {
    seq(|g.vcAxioms|, i requires 0 <= i < |g.vcAxioms| => g.vcAxiomInst(g.vcAxioms[i], ids))
  }

  /** The VC hypothesis: the VC under the axiom premises, universally closed over the bound ids. */
  function VcAssm(g: Generator): Term
  {
    var ids := VcDeclIds(g);
    TermQuantifier(MetaAll, ids, Some(VcDeclTypes(g)), AggregateImp(g.vcInst(ids), Reverse(VcAxiomTerms(g, ids))))
  }

  function EmptyListTerm(g: Generator): Term { g.env.term(EmptyList, []) }

  /** The seven hypotheses of `endToEnd`, in order. */
  function FinalHypotheses(g: Generator): (r: seq<Term>)
    ensures |r| == 7 && r[0] == VcAssm(g)
  {
    var a := g.accessor;
    [VcAssm(g),
     g.env.term(ClosednessAssumption, [AbsValTyMap]),
     g.env.term(NonEmptyTypesAssumption, [AbsValTyMap]),
     g.env.term(FunInterpWf, [AbsValTyMap, a.functionsDecl, FunContext]),
     g.env.term(AxiomSat, [AbsValTyMap, TermTuple([EmptyListTerm(g), EmptyListTerm(g)]), FunContext, a.axiomsDecl,
       TermWithExplicitType(NormalInitState, g.env.isaType(NormalStateType))]),
     g.env.term(StateWf, [AbsValTyMap, RtypeEnv, a.paramsAndLocalsDecl, g.env.term(LocalState, [NormalInitState])]),
     g.env.term(RedCFGMulti, [AbsValTyMap, MethodContext, TermTuple([EmptyListTerm(g), a.paramsAndLocalsDecl]), FunContext, RtypeEnv,
       a.cfgDecl,
       g.env.term(CFGConfigNode, [NatConst(g.entryLabel), g.env.term(Normal, [NormalInitState])]),
       g.env.term(CFGConfig, [FinalNode, FinalState])])]
  }

  const FinalLabels: seq<string> := [VcAssmName, ClosedAssmName, NonEmptyTypesAssmName, FInterpAssmName, AxiomAssmName, ParamsLocalsAssmName, RedAssmName]

  function FinalConclusion(g: Generator): Term
  {
    TermBinary(FinalState, g.env.term(Failure, []), Neq)
  }

  /** The VC hypothesis chains the VC axioms as premises in their order and closes over the variable ids, then the function ids. */
  lemma VcAssmShape(g: Generator)
    ensures var ids := VcDeclIds(g); var t := VcAssm(g);
      t.TermQuantifier? && t.quant == MetaAll && t.boundVars == ids &&
      t.body == Premised(VcAxiomTerms(g, ids), g.vcInst(ids)) &&
      ids[..|g.declIds|] == g.declIds && |ids| == |g.declIds| + |g.data.functions|
  {
    AggregateChainsInOrder(VcAxiomTerms(g, VcDeclIds(g)), g.vcInst(VcDeclIds(g)));
  }

  /* ------------------------------------------------------------ final proof */

  /** `EvaluationName`: the fact that axiom `i` evaluates to true, named after the axiom's number. */
  function EvaluationName(g: Generator, i: nat): (r: Result<string>)
    ensures g.axiomIds.None? ==> r == Err(NullReference)
    ensures g.axiomIds.Some? && i in g.axiomIds.value ==> r == Ok("ea_" + NatToString(g.axiomIds.value[i]))
  {
    match g.axiomIds
    case None => Err(NullReference)
    case Some(ids) => if i in ids then Ok("ea_" + NatToString(ids[i])) else Err(KeyNotFound)
  }

  /** The numbering the rest of the catalog uses: each axiom numbered by its position. */
  function AxiomIdsByPosition(n: nat): (m: map<nat, nat>)
    ensures forall i :: 0 <= i < n ==> i in m && m[i] == i
    decreases n
  {
    if n == 0 then map[] else AxiomIdsByPosition(n - 1)[n - 1 := n - 1]
  }

  function ProofHeader(g: Generator): (r: seq<string>)
    ensures |r| == 2 && r[0] == "proof -"
  {
    ["proof -", "let " + QVarContext + " = " + "\"" + g.env.show(TermTuple([EmptyListTerm(g), g.accessor.paramsAndLocalsDecl])) + "\""]
  }

  function InnerText(g: Generator, s: string): string { g.env.text(Inner, [s]) }

  /** The abbreviation of `f`'s interpretation and the fact that the function context maps `f` to it. */
  function FunInterpLines(g: Generator, f: FunctionDecl): (r: seq<string>)
    ensures |r| == 4 && StartsWith(r[1], "have " + InterpMemName(f, false) + ":")
  {
    var name := FunNameConst(f);
    ["let " + FunAbbrev(f) + " = " + InnerText(g, "opaque_comp the " + g.env.show(FunContext) + " " + g.env.show(name)),
     "have " + InterpMemName(f, false) + ":" + InnerText(g, g.env.show(TermBinary(TermApp(FunContext, [name]), SomeTerm(g, TermIdent(FunAbbrev(f))), Eq))),
     "apply " + g.env.text(SimpOnly, ["opaque_comp_def"]),
     "by (rule " + g.env.text(OF, ["finterp_member", FInterpAssmName, g.accessor.membershipLemma(f)]) + ")"]
  }

  function FunNameConst(f: FunctionDecl): Term { StringConst(f.name) }

  /** The state-correspondence fact of a variable the translation knows; nothing for other variables. */
  function StateCorresLines(g: Generator, assm: string, v: VariableDecl): (r: seq<string>)
    ensures |r| == (if v.translation.Some? then 5 else 0)
    ensures v.translation.Some? ==> StartsWith(r[0], "from " + assm + " have " + StateCorresName(g, v) + ":")
  {
    match v.translation
    case None => []
    case Some(tr) =>
      var stateEval := g.env.term(LookupVar, [TermIdent(QVarContext), NormalInitState, tr.id]);
      var rhs := SomeTerm(g, g.env.value(ConstructValue, g.env.value(DestructValue, TheTerm(g, stateEval), v.ty), v.ty));
      var typ := TermBinary(g.env.term(TypeToVal, [AbsValTyMap, TheTerm(g, stateEval)]), g.env.translateType(v.ty, []), Eq);
      ["from " + assm + " have " + StateCorresName(g, v) + ":" + InnerText(g, g.env.show(TermBinary(TermBinary(stateEval, rhs, Eq), typ, And))),
       "apply " + g.env.text(SimpOnly, ["state_typ_wf_def"]),
       "apply (erule allE, erule allE, erule impE, rule " + g.accessor.membershipLemma(v) + ")",
       "apply (subst " + g.env.text(OF, ["lookup_var_local", g.accessor.membershipLemma(v)]) + ")+",
       "by (fastforce dest: tint_intv tbool_boolv)"]
  }

  /** The fact that axiom `i` evaluates to true, or the failure of its name. */
  function AxiomEvalLines(g: Generator, i: nat, ax: AxiomDecl): (r: Result<seq<string>>)
    ensures r.Err? <==> EvaluationName(g, i).Err?
    ensures r.Ok? ==> |r.value| == 2 && r.value[0] == "have " + EvaluationName(g, i).value + ": " + InnerText(g, g.env.show(EvalTerm(g, ax)))
  {
    var name := EvaluationName(g, i);
    if name.Err? then Err(name.fault)
    else Ok(["have " + name.value + ": " + InnerText(g, g.env.show(EvalTerm(g, ax))),
             "by (rule axioms_sat_mem[OF " + g.accessor.membershipLemma(ax) + " " + AxiomAssmName + "])"])
  }

  /** The axiom's expression reduces to true in the initial state. */
  function EvalTerm(g: Generator, ax: AxiomDecl): Term
  {
    g.env.term(RedExpr, [AbsValTyMap, MethodContext, VarContext, FunContext, RtypeEnv, ax.isa, NormalInitState,
      g.env.term(BoolVal, [BoolConst(true)])])
  }

  /** The evaluation facts of the first `n` axioms; the first unnamed axiom aborts. */
  function AxiomEvalsUpTo(g: Generator, n: nat): (r: Result<seq<string>>)
    requires n <= |g.data.axioms|
    decreases n
  {
    if n == 0 then Ok([])
    else
      var pre := AxiomEvalsUpTo(g, n - 1);
      var last := AxiomEvalLines(g, n - 1, g.data.axioms[n - 1]);
      if pre.Err? then pre else if last.Err? then Err(last.fault) else Ok(pre.value + last.value)
  }

  function FunTacticLines(g: Generator, f: FunctionDecl): (r: seq<string>)
    ensures |r| == 3 && r[0] == "apply " + g.env.text(Simp, [InterpMemName(f, false)])
  {
    var thm := (s: string) => g.env.text(IsaToMLThm, [s]);
    ["apply " + g.env.text(Simp, [InterpMemName(f, false)]),
     "apply (rule+)",
     g.env.text(MLTactic, ["vc_fun_corres_tac " + g.env.text(ContextAntiquotation, []) + " " + thm(FunCorresName(f, false)) + " " +
       thm(FInterpAssmName) + " " + thm(g.accessor.membershipLemma(f)) + " " + thm(InterpMemName(f, false)), "1"])]
  }

  /** The step that uses a variable's state correspondence: its value, and its type unless primitive. */
  function VarTacticLines(g: Generator, v: VariableDecl): (r: seq<string>)
    ensures |r| == 1 && StartsWith(r[0], "apply (rule " + g.env.text(OF, ["HOL.conjunct1", StateCorresName(g, v)]))
  {
    var typeTac := if g.env.isPrimitive(v.ty) then "" else " , rule " + g.env.text(OF, ["HOL.conjunct2", StateCorresName(g, v)]);
    ["apply (" + "rule " + g.env.text(OF, ["HOL.conjunct1", StateCorresName(g, v)]) + typeTac + ")"]
  }

  function FunInterpBlock(g: Generator): FunctionDecl -> seq<string> { (f: FunctionDecl) => FunInterpLines(g, f) }
  function StateCorresBlock(g: Generator, assm: string): VariableDecl -> seq<string> { (v: VariableDecl) => StateCorresLines(g, assm, v) }
  function FunTacticBlock(g: Generator): FunctionDecl -> seq<string> { (f: FunctionDecl) => FunTacticLines(g, f) }
  function VarTacticBlock(g: Generator): VariableDecl -> seq<string> { (v: VariableDecl) => VarTacticLines(g, v) }

  function ShowLines(g: Generator): (r: seq<string>)
    ensures |r| == 4
  {
    ["show " + InnerText(g, g.env.show(FinalConclusion(g))),
     "apply (rule passification.method_verifies[OF _ " + RedAssmName + "])",
     "apply " + g.env.text(SimpOnly, ["passification_def"]),
     "apply (intro conjI)"]
  }

  /** The facts established before the conclusion: interpretations, state correspondences, axiom evaluations. */
  function FactLines(g: Generator, evals: seq<string>): seq<string>
  {
    ProofHeader(g) + Seqs.FlatMap(g.data.functions, FunInterpBlock(g)) +
      Seqs.FlatMap(g.data.inParams, StateCorresBlock(g, ParamsLocalsAssmName)) +
      Seqs.FlatMap(g.data.locals, StateCorresBlock(g, ParamsLocalsAssmName)) + evals + [""]
  }

  /** The conclusion and the steps before the VC axioms: function correspondences, variables, closedness, the VC. */
  function ConclusionLines(g: Generator): seq<string>
  {
    ShowLines(g) + Seqs.FlatMap(g.data.functions, FunTacticBlock(g)) +
      Seqs.FlatMap(g.data.inParams + g.data.locals, VarTacticBlock(g)) + ClosingLines(g)
  }

  /** Closedness of the abstract value map, then the VC hypothesis itself. */
  function ClosingLines(g: Generator): seq<string>
  {
    ["apply " + g.env.text(Simp, [ClosedAssmName]), "apply (rule " + VcAssmName + ")"]
  }

  /** The proof of `endToEnd`, line by line, or the first failure while building it. */
  function FinalProofLines(g: Generator): (r: Result<seq<string>>)
    ensures r.Ok? ==> |r.value| >= 2 && r.value[0] == "proof -" && r.value[|r.value| - 2..] == ["done", "qed"]
  {
    var evals := AxiomEvalsUpTo(g, |g.data.axioms|);
    var axProof := AxiomProofLines(g, g.vcAxiomsInfo);
    if evals.Err? then Err(evals.fault)
    else if axProof.Err? then Err(axProof.fault)
    else Ok(FactLines(g, evals.value) + ConclusionLines(g) + axProof.value + ["done", "qed"])
  }

  /** With an axiom numbering, the evaluation facts are named `ea_<id>`; without one, the first axiom fails. */
  lemma {:induction false} AxiomEvalsFail(g: Generator, n: nat)
    requires n <= |g.data.axioms|
    ensures g.axiomIds.None? && n > 0 ==> AxiomEvalsUpTo(g, n) == Err(NullReference)
    ensures (g.axiomIds.Some? && forall i :: 0 <= i < n ==> i in g.axiomIds.value) ==> AxiomEvalsUpTo(g, n).Ok?
    decreases n
  {
    if n > 0 {
      AxiomEvalsFail(g, n - 1);
    }
  }

  /** As written: the axiom numbering is never set, so the final proof fails for every procedure with an axiom. */
  lemma AsWrittenFinalProofFails(g: Generator)
    requires g.axiomIds.None? && |g.data.axioms| > 0
    ensures FinalProofLines(g) == Err(NullReference)
  {
    AxiomEvalsFail(g, |g.data.axioms|);
  }

  /** Numbered by position, the evaluation facts are `ea_0`, `ea_1`, ...: all distinct, and the final proof fails only on a fatal VC axiom. */
  lemma CorrectedFinalProof(g: Generator)
    requires g.axiomIds == Some(AxiomIdsByPosition(|g.data.axioms|))
    ensures FinalProofLines(g).Err? <==> exists i :: 0 <= i < |g.vcAxiomsInfo| && IsFatalAxiom(g, g.vcAxiomsInfo[i])
    ensures forall i :: 0 <= i < |g.data.axioms| ==> EvaluationName(g, i) == Ok("ea_" + NatToString(i))
    ensures forall i, j :: 0 <= i < j < |g.data.axioms| ==> EvaluationName(g, i).value != EvaluationName(g, j).value
  {
    AxiomEvalsFail(g, |g.data.axioms|);
    AxiomProofFails(g, g.vcAxiomsInfo);
    forall i, j | 0 <= i < j < |g.data.axioms|
      ensures EvaluationName(g, i).value != EvaluationName(g, j).value
    {
      IndexedNamesDistinct("ea_", i, j);
    }
  }

  /** `AppendStateCorres`: the state-correspondence facts of `vars`, appended to `sb`. */
  method AppendStateCorres(g: Generator, assm: string, vars: seq<VariableDecl>, sb: seq<string>) returns (lines: seq<string>)
    ensures lines == sb + Seqs.FlatMap(vars, StateCorresBlock(g, assm))
  {
    lines := sb;
    var i := 0;
    while i < |vars|
      invariant 0 <= i <= |vars|
      invariant lines == sb + Seqs.FlatMap(vars[..i], StateCorresBlock(g, assm))
    {
      Seqs.FlatMapAppend(sb, vars, i, StateCorresBlock(g, assm));
      var v := vars[i];
      if v.translation.Some? {
        lines := lines + StateCorresBlock(g, assm)(v);
      } else {
        assert StateCorresBlock(g, assm)(v) == [];
      }
      i := i + 1;
    }
    assert vars[..i] == vars;
  }

  /** The interpretation facts of the functions, appended to `sb`. */
  method AppendFunInterps(g: Generator, sb: seq<string>) returns (lines: seq<string>)
    ensures lines == sb + Seqs.FlatMap(g.data.functions, FunInterpBlock(g))
  {
    var fs := g.data.functions;
    lines := sb;
    var i := 0;
    while i < |fs|
      invariant 0 <= i <= |fs|
      invariant lines == sb + Seqs.FlatMap(fs[..i], FunInterpBlock(g))
    {
      Seqs.FlatMapAppend(sb, fs, i, FunInterpBlock(g));
      lines := lines + FunInterpBlock(g)(fs[i]);
      i := i + 1;
    }
    assert fs[..i] == fs;
  }

  /** The evaluation facts of the axioms, appended to `sb`; the first axiom without a name aborts. */
  method AppendAxiomEvals(g: Generator, sb: seq<string>) returns (r: Result<seq<string>>)
    ensures AxiomEvalsUpTo(g, |g.data.axioms|).Err? ==> r == Err(AxiomEvalsUpTo(g, |g.data.axioms|).fault)
    ensures AxiomEvalsUpTo(g, |g.data.axioms|).Ok? ==> r == Ok(sb + AxiomEvalsUpTo(g, |g.data.axioms|).value)
  {
    var lines := sb;
    var k := 0;
    while k < |g.data.axioms|
      invariant 0 <= k <= |g.data.axioms|
      invariant AxiomEvalsUpTo(g, k).Ok? && lines == sb + AxiomEvalsUpTo(g, k).value
    {
      var name := EvaluationName(g, k);
      if name.Err? {
        AxiomEvalsFirstFault(g, k, |g.data.axioms|);
        return Err(name.fault);
      }
      lines := lines + AxiomEvalLines(g, k, g.data.axioms[k]).value;
      k := k + 1;
    }
    r := Ok(lines);
  }

  /** The steps that use each function's correspondence lemma, appended to `sb`. */
  method AppendFunTactics(g: Generator, sb: seq<string>) returns (lines: seq<string>)
    ensures lines == sb + Seqs.FlatMap(g.data.functions, FunTacticBlock(g))
  {
    var fs := g.data.functions;
    lines := sb;
    var i := 0;
    while i < |fs|
      invariant 0 <= i <= |fs|
      invariant lines == sb + Seqs.FlatMap(fs[..i], FunTacticBlock(g))
    {
      Seqs.FlatMapAppend(sb, fs, i, FunTacticBlock(g));
      lines := lines + FunTacticBlock(g)(fs[i]);
      i := i + 1;
    }
    assert fs[..i] == fs;
  }

  /** The steps that use each variable's state correspondence, appended to `sb`. */
  method AppendVarTactics(g: Generator, vars: seq<VariableDecl>, sb: seq<string>) returns (lines: seq<string>)
    ensures lines == sb + Seqs.FlatMap(vars, VarTacticBlock(g))
  {
    lines := sb;
    var j := 0;
    while j < |vars|
      invariant 0 <= j <= |vars|
      invariant lines == sb + Seqs.FlatMap(vars[..j], VarTacticBlock(g))
    {
      Seqs.FlatMapAppend(sb, vars, j, VarTacticBlock(g));
      lines := lines + VarTacticBlock(g)(vars[j]);
      j := j + 1;
    }
    assert vars[..j] == vars;
  }

  lemma ConcatRegroup(a: seq<string>, b: seq<string>, c: seq<string>, d: seq<string>, e: seq<string>)
    ensures a + b + c + d + e == a + (b + c + d + e)
  {
  }

  /** `FinalProof`: the Isar proof of `endToEnd`, or the first failure while writing it. */
  method FinalProof(g: Generator) returns (r: Result<seq<string>>)
    ensures r == FinalProofLines(g)
  {
    var sb := AppendFunInterps(g, ProofHeader(g));
    sb := AppendStateCorres(g, ParamsLocalsAssmName, g.data.inParams, sb);
    sb := AppendStateCorres(g, ParamsLocalsAssmName, g.data.locals, sb);
    var withEvals := AppendAxiomEvals(g, sb);
    if withEvals.Err? {
      return withEvals;
    }
    var facts := withEvals.value + [""];
    assert facts == FactLines(g, AxiomEvalsUpTo(g, |g.data.axioms|).value);
    sb := AppendFunTactics(g, facts + ShowLines(g));
    sb := AppendVarTactics(g, g.data.inParams + g.data.locals, sb);
    sb := sb + ClosingLines(g);
    ConcatRegroup(facts, ShowLines(g), Seqs.FlatMap(g.data.functions, FunTacticBlock(g)),
      Seqs.FlatMap(g.data.inParams + g.data.locals, VarTacticBlock(g)), ClosingLines(g));
    var withAxioms := AppendVcAxiomsProof(g, g.vcAxiomsInfo, sb);
    if withAxioms.Err? {
      return withAxioms;
    }
    r := Ok(withAxioms.value + ["done", "qed"]);
  }

  /** When the first `k` axioms are named and axiom `k` is not, the evaluation facts fail with its fault. */
  lemma {:induction false} AxiomEvalsFirstFault(g: Generator, k: nat, n: nat)
    requires k < n <= |g.data.axioms| && AxiomEvalsUpTo(g, k).Ok? && EvaluationName(g, k).Err?
    ensures AxiomEvalsUpTo(g, n) == Err(EvaluationName(g, k).fault)
    decreases n
  {
    if n - 1 > k {
      AxiomEvalsFirstFault(g, k, n - 1);
    }
  }

  /** The final lemma: the seven hypotheses under their labels, `s' ~= Failure`, and its proof. */
  function FinalLemmaResult(g: Generator): Result<LemmaDecl>
  {
    var proof := FinalProofLines(g);
    if proof.Err? then Err(proof.fault)
    else Ok(LemmaDecl("endToEnd", FinalHypotheses(g), FinalLabels, FinalConclusion(g), proof.value))
  }

  /** `endToEnd` pairs each hypothesis with its own label, and fails only when its proof does. */
  lemma FinalLemmaShape(g: Generator)
    ensures FinalLemmaResult(g).Err? <==> FinalProofLines(g).Err?
    ensures FinalLemmaResult(g).Ok? ==> (
      var l := FinalLemmaResult(g).value;
      l.name == "endToEnd" && |l.assumptions| == |l.labels| == 7 &&
      l.labels[0] == VcAssmName && l.assumptions[0] == VcAssm(g) &&
      l.labels == FinalLabels && l.assumptions == FinalHypotheses(g) &&
      l.statement == TermBinary(FinalState, g.env.term(Failure, []), Neq) &&
      l.proof[0] == "proof -")
  {
  }

  /** No two hypotheses of `endToEnd` share a label, so each can be cited by name. */
  lemma FinalLabelsDistinct()
    ensures |FinalLabels| == 7 && forall i, j :: 0 <= i < j < |FinalLabels| ==> FinalLabels[i] != FinalLabels[j]
  {
    forall i, j | 0 <= i < j < |FinalLabels|
      ensures FinalLabels[i] != FinalLabels[j]
    {
      assert FinalLabels[i][0] != FinalLabels[j][0] || FinalLabels[i][1] != FinalLabels[j][1];
    }
  }

  /** `FinalLemma`: the VC hypothesis built over the bound ids, the other six hypotheses, and the proof. */
  method FinalLemma(g: Generator) returns (r: Result<LemmaDecl>)
    ensures r == FinalLemmaResult(g)
  {
    var fs := g.data.functions;
    var declIds := g.declIds;
    var declTypes := g.declTypes;
    var i := 0;
    while i < |fs|
      invariant 0 <= i <= |fs|
      invariant declIds == VcDeclIds(g)[..|g.declIds| + i]
      invariant declTypes == VcDeclTypes(g)[..|g.declTypes| + i]
    {
      declIds := declIds + [g.names(VcFunIdKey(fs[i].name))];
      declTypes := declTypes + [g.vcFunType(fs[i])];
      i := i + 1;
    }
    assert declIds == VcDeclIds(g) && declTypes == VcDeclTypes(g);
    var axiomTerms := VcAxiomTerms(g, declIds);
    var vcAssm := g.vcInst(declIds);
    var k := |g.vcAxioms|;
    while k > 0
      invariant 0 <= k <= |g.vcAxioms|
      invariant vcAssm == Premised(axiomTerms[k..], g.vcInst(declIds))
    {
      k := k - 1;
      assert axiomTerms[k..][1..] == axiomTerms[k + 1..];
      vcAssm := TermBinary(g.vcAxiomInst(g.vcAxioms[k], declIds), vcAssm, MetaImp);
    }
    assert axiomTerms[0..] == axiomTerms;
    AggregateChainsInOrder(axiomTerms, g.vcInst(declIds));
    vcAssm := TermQuantifier(MetaAll, declIds, Some(declTypes), vcAssm);
    var proof := FinalProof(g);
    if proof.Err? {
      return Err(proof.fault);
    }
    var a := g.accessor;
    var closedAssm := g.env.term(ClosednessAssumption, [AbsValTyMap]);
    var nonEmptyTypesAssm := g.env.term(NonEmptyTypesAssumption, [AbsValTyMap]);
    var finterpAssm := g.env.term(FunInterpWf, [AbsValTyMap, a.functionsDecl, FunContext]);
    var axiomAssm := g.env.term(AxiomSat, [AbsValTyMap, TermTuple([EmptyListTerm(g), EmptyListTerm(g)]), FunContext, a.axiomsDecl,
      TermWithExplicitType(NormalInitState, g.env.isaType(NormalStateType))]);
    var paramsAssm := g.env.term(StateWf, [AbsValTyMap, RtypeEnv, a.paramsAndLocalsDecl, g.env.term(LocalState, [NormalInitState])]);
    var multiRed := g.env.term(RedCFGMulti, [AbsValTyMap, MethodContext, TermTuple([EmptyListTerm(g), a.paramsAndLocalsDecl]), FunContext, RtypeEnv,
      a.cfgDecl,
      g.env.term(CFGConfigNode, [NatConst(g.entryLabel), g.env.term(Normal, [NormalInitState])]),
      g.env.term(CFGConfig, [FinalNode, FinalState])]);
    var conclusion := TermBinary(FinalState, g.env.term(Failure, []), Neq);
    r := Ok(LemmaDecl("endToEnd", [vcAssm, closedAssm, nonEmptyTypesAssm, finterpAssm, axiomAssm, paramsAssm, multiRed],
      [VcAssmName, ClosedAssmName, NonEmptyTypesAssmName, FInterpAssmName, AxiomAssmName, ParamsLocalsAssmName, RedAssmName],
      conclusion, proof.value));
  }

  /* ------------------------------------------------------------ generate proof */

  function VcFunDefinitionOf(g: Generator): FunctionDecl -> OuterDecl { (f: FunctionDecl) => VcFunDefinitionDecl(g, f) }
  function FunCorresLemmaOf(g: Generator): FunctionDecl -> OuterDecl { (f: FunctionDecl) => Lemma(CorresLemma(g, f)) }

  /** The one-equation definitions of the VC functions, in the order of the Boogie functions. */
  function VcFunDefinitions(g: Generator): seq<OuterDecl>
  {
    Seqs.Map(g.data.functions, VcFunDefinitionOf(g))
  }

  /** The correspondence lemmas, in the order of the Boogie functions. */
  function FunCorresLemmas(g: Generator): seq<OuterDecl>
  {
    Seqs.Map(g.data.functions, FunCorresLemmaOf(g))
  }

  const NoOneNatSimp: OuterDecl := DeclareDecl("One_nat_def[simp del]")

  /** The theory body: definitions, correspondences, `ctor`, the simp-set change, then `endToEnd`. */
  function GenerateProofResult(g: Generator): Result<seq<OuterDecl>>
  {
    var ctor := CtorFunResult(g, g.vcAxiomsInfo);
    var final := FinalLemmaResult(g);
    if ctor.Err? then Err(ctor.fault)
    else if final.Err? then Err(final.fault)
    else Ok(VcFunDefinitions(g) + FunCorresLemmas(g) + ctor.value + [NoOneNatSimp, Lemma(final.value)])
  }

  /** `GenerateProof`: the declarations of the end-to-end theory, in order. */
  method GenerateProof(g: Generator) returns (r: Result<seq<OuterDecl>>)
    ensures r == GenerateProofResult(g)
  {
    var defs := VCFunDefinitionsOf(g);
    var corres := FunCorresLemmasOf(g);
    var ctor := CtorFun(g, g.vcAxiomsInfo);
    if ctor.Err? {
      return Err(ctor.fault);
    }
    var final := FinalLemma(g);
    if final.Err? {
      return Err(final.fault);
    }
    r := Ok(defs + corres + ctor.value + [NoOneNatSimp, Lemma(final.value)]);
  }

  /** `VCFunDefinitions`: the definition of each function's VC function, in order. */
  method VCFunDefinitionsOf(g: Generator) returns (defs: seq<OuterDecl>)
    ensures defs == VcFunDefinitions(g)
  {
    var fs := g.data.functions;
    defs := [];
    var i := 0;
    while i < |fs|
      invariant 0 <= i <= |fs|
      invariant defs == Seqs.Map(fs[..i], VcFunDefinitionOf(g))
    {
      Seqs.MapPrefix(fs, i, VcFunDefinitionOf(g));
      var d := VCFunDefinition(g, fs[i]);
      assert VcFunDefinitionOf(g)(fs[i]) == d;
      defs := defs + [d];
      i := i + 1;
    }
    assert fs[..i] == fs;
  }

  /** `FunCorresLemmas`: the correspondence lemma of each function, in order. */
  method FunCorresLemmasOf(g: Generator) returns (corres: seq<OuterDecl>)
    ensures corres == FunCorresLemmas(g)
  {
    var fs := g.data.functions;
    corres := [];
    var i := 0;
    while i < |fs|
      invariant 0 <= i <= |fs|
      invariant corres == Seqs.Map(fs[..i], FunCorresLemmaOf(g))
    {
      Seqs.MapPrefix(fs, i, FunCorresLemmaOf(g));
      var l := FunCorres(g, fs[i]);
      assert FunCorresLemmaOf(g)(fs[i]) == Lemma(l);
      corres := corres + [Lemma(l)];
      i := i + 1;
    }
    assert fs[..i] == fs;
  }

  /** Where each part of a theory body of the generator's shape lands. */
  lemma TheoryLayout(r: seq<OuterDecl>, defs: seq<OuterDecl>, corres: seq<OuterDecl>, ctor: seq<OuterDecl>, final: LemmaDecl)
    requires r == defs + corres + ctor + [NoOneNatSimp, Lemma(final)] && |corres| == |defs| && |ctor| >= 2
    ensures |r| >= 2 * |defs| + 4 && r[..|defs|] == defs && r[|defs|..2 * |defs|] == corres
    ensures r[2 * |defs|] == ctor[0] && r[|r| - 2] == NoOneNatSimp && r[|r| - 1] == Lemma(final)
  {
    assert r[..|defs|] == defs;
    assert r[|defs|..2 * |defs|] == corres;
  }

  /** Definitions first, then one correspondence lemma per function, `ctor`, and `endToEnd` last. */
  lemma GenerateProofOrder(g: Generator)
    requires GenerateProofResult(g).Ok?
    ensures var r := GenerateProofResult(g).value; var n := |g.data.functions|;
      |r| >= 2 * n + 4 &&
      r[..n] == VcFunDefinitions(g) && r[n..2 * n] == FunCorresLemmas(g) &&
      r[2 * n].DefDecl? && r[2 * n].name == CtorDeclListName &&
      r[|r| - 2] == NoOneNatSimp &&
      r[|r| - 1].Lemma? && r[|r| - 1].decl.name == "endToEnd" && r[|r| - 1].decl.assumptions[0] == VcAssm(g)
  {
    var ctor, final := CtorFunResult(g, g.vcAxiomsInfo).value, FinalLemmaResult(g).value;
    TheoryLayout(GenerateProofResult(g).value, VcFunDefinitions(g), FunCorresLemmas(g), ctor, final);
    assert ctor[0].DefDecl? && ctor[0].name == CtorDeclListName;
    assert final.name == "endToEnd" && final.assumptions[0] == VcAssm(g);
  }

  /** As written: with no axiom numbering, a procedure with an axiom gets no theory at all. */
  lemma AsWrittenGenerateProofFails(g: Generator)
    requires g.axiomIds.None? && |g.data.axioms| > 0
    ensures GenerateProofResult(g).Err?
  {
    AsWrittenFinalProofFails(g);
  }

  /** Numbered by position, the theory is produced unless a VC axiom is of a kind the generator cannot handle. */
  lemma CorrectedGenerateProof(g: Generator)
    requires g.axiomIds == Some(AxiomIdsByPosition(|g.data.axioms|))
    ensures GenerateProofResult(g).Err? <==> (
      (exists i :: 0 <= i < |g.vcAxiomsInfo| && IsUnsupportedCtor(g.vcAxiomsInfo[i])) ||
      (exists i :: 0 <= i < |g.vcAxiomsInfo| && IsFatalAxiom(g, g.vcAxiomsInfo[i])))
  {
    CtorFunFails(g, g.vcAxiomsInfo);
    CorrectedFinalProof(g);
  }
}
