/**
 * Helpers that live outside the modelled files: the term library's constructors, the
 * value and type translators, the type utilities and the proof-text utilities. They are
 * left uninterpreted: every property of the model holds whatever these functions are.
 */
module Foreign {
  import opened IsaAst
  import opened BoogieAst

  datatype TermFn =
    // IsaCommonTerms
    | SomeOption | NoneOption | TheOption | AppendList | SetOfList | Elem | SetInter | EmptySet | EmptyList
    | SetMax | SetMin | Map | FstId | SndId | ListAll | Composition
    // IsaBoogieTerm, IsaBoogieVC, IsaBoogieType, LemmaHelper
    | LookupVarTy | LookupVar | FunInterpSingleWf | FunInterpWf | IsClosedType | TypeToVal | AxiomSat | StateWf
    | LocalState | RedCFGMulti | CFGConfigNode | CFGConfig | Normal | Failure | RedExpr | BoolVal
    | ClosedToTy | TyToClosed | ValOfClosedTy | VCTypeConstructor | PrimType | IntTypeTerm | BoolTypeTerm
    | ClosednessAssumption | NonEmptyTypesAssumption

  datatype ValueFn = ConstructValue | DestructValue

  datatype IsaTypeFn = BoogieClosedType | NormalStateType

  datatype TextFn =
    // ProofUtil
    | Simp | SimpOnly | SimpAll | Apply | By | OF | MLTactic
    // MLUtil
    | DefineVal | MLList | IsaToMLThm | ContextAntiquotation
    // IsaPrettyPrinterHelper
    | Inner | SpaceAggregate
    // IsaBoogieVC
    | LeftInvLemmaName

  datatype Env = Env(
    term: (TermFn, seq<Term>) -> Term,
    value: (ValueFn, Term, BType) -> Term,
    translateType: (BType, seq<(string, Term)>) -> Term,
    isaType: IsaTypeFn -> TypeIsa,
    isPrimitive: BType -> bool,
    typeText: BType -> string,
    text: (TextFn, seq<string>) -> string,
    show: Term -> string
  )
}
