/**
 * The target logic's abstract syntax as the proof generator builds it: terms, types and
 * top-level declarations. Values are built bottom-up and never changed afterwards, so they
 * are datatypes; equality is structural.
 */
module IsaAst {
  import opened Wrappers

  datatype BinOp = Eq | Neq | Implies | MetaImp | And | Le | Ge

  datatype Quantifier = ForAll | MetaAll

  datatype SimpleType = BoolT | IntT | NatT | StringT

  datatype TypeIsa =
    | TupleType(elems: seq<TypeIsa>)
    | ArrowType(arg: TypeIsa, res: TypeIsa)
    | DataType(name: string, args: seq<TypeIsa>)
    | PrimitiveType(prim: SimpleType)
    | VarType(name: string)

  datatype Term =
    | TermApp(fun: Term, args: seq<Term>)
    | TermList(elems: seq<Term>)
    | TermSet(elems: seq<Term>)
    | TermRecord(fields: seq<(string, Term)>)
    | TermTuple(elems: seq<Term>)
    | TermIdent(id: string)
    | TermNAry(op: string, args: seq<Term>)
    | BoolConst(b: bool)
    | NatConst(n: nat)
    | IntConst(i: int)
    | StringConst(s: string)
    | TermBinary(lhs: Term, rhs: Term, binOp: BinOp)
    | TermQuantifier(quant: Quantifier, boundVars: seq<string>, boundTypes: Option<seq<TypeIsa>>, body: Term)
    | TermCaseOf(scrutinee: Term, cases: seq<(Term, Term)>)
    | TermWithExplicitType(term: Term, ty: TypeIsa)

  /** One defining equation: argument patterns and right-hand side. */
  type Equation = (seq<Term>, Term)

  /** A lemma: its name, labelled assumptions, statement and proof lines. */
  datatype LemmaDecl = LemmaDecl(name: string, assumptions: seq<Term>, labels: seq<string>, statement: Term, proof: seq<string>)

  datatype OuterDecl =
    | FunDecl(name: string, ty: Option<TypeIsa>, equations: seq<Equation>)
    | DefDecl(name: string, equation: Equation)
    | Lemma(decl: LemmaDecl)
    | DeclareDecl(text: string)
    | MLDecl(code: string)

  /** A lemma without assumptions. */
  function PlainLemma(name: string, statement: Term, proof: seq<string>): LemmaDecl
  {
    LemmaDecl(name, [], [], statement, proof)
  }
}
