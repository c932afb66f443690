/** The parts of the source program that the proof generator reads. */
module BoogieAst {
  import opened Wrappers
  import opened IsaAst

  datatype BType =
    | IntType
    | BoolType
    | OtherBasicType(name: string)
    | TypeVar(name: string)
    | CtorType(name: string, args: seq<BType>)

  /**
   * A type parameter of a function. `isImplicit` is the split made by the type utilities
   * (implicit parameters are fixed by the argument types), `extractor` the term the extractor
   * translator gives for it; both come from code outside this model.
   */
  datatype TypeParam = TypeParam(name: string, isImplicit: bool, extractor: Term)

  datatype Formal = Formal(name: string, ty: BType)

  /** How the variable translation of the host renders a variable: its id term, and whether it is bound. */
  datatype VarTranslation = VarTranslation(id: Term, isBound: bool)

  /**
   * A declaration, identified by `id`. `isa` is its translation to the target logic as
   * built by code outside this model (function declaration, variable declaration, axiom expression).
   */
  datatype Declaration =
    | Function(id: nat, name: string, typeParams: seq<TypeParam>, inParams: seq<Formal>, outType: BType, isa: Term)
    | Variable(id: nat, name: string, ty: BType, translation: Option<VarTranslation>, isa: Term)
    | Axiom(id: nat, isa: Term)

  type FunctionDecl = d: Declaration | d.Function? witness Function(0, "", [], [], IntType, TermIdent(""))

  type VariableDecl = d: Declaration | d.Variable? witness Variable(0, "", IntType, None, TermIdent(""))

  type AxiomDecl = d: Declaration | d.Axiom? witness Axiom(0, TermIdent(""))

  /** The `Name` of a named declaration; axioms have none. */
  function NameOf(d: Declaration): string
  {
    if d.Axiom? then "" else d.name
  }
}
