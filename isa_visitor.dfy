/**
 * The generic traversals over terms, types and outer declarations. A visitor is the record of
 * its per-variant handlers; `Visit` dispatches on the variant. Variants for which the visitor
 * has no handler yield None: their dispatch is defined in the term classes, which are not part
 * of this model.
 */
module IsaVisitor {
  import opened Wrappers
  import opened IsaAst

  /** The eleven term variants a term visitor handles. */
  datatype TermKind = App | List | Set | Record | Tuple | Ident | NAry | BoolLit | NatLit | IntLit | StringLit

  datatype TermVisitor<R> = TermVisitor(
    visitTermApp: Term -> R,
    visitTermList: Term -> R,
    visitTermSet: Term -> R,
    visitTermRecord: Term -> R,
    visitTermTuple: Term -> R,
    visitTermIdent: Term -> R,
    visitTermNAry: Term -> R,
    visitBoolConst: Term -> R,
    visitNatConst: Term -> R,
    visitIntConst: Term -> R,
    visitStringConst: Term -> R)

  /** The handled variant of `t`, if it is one of the eleven. */
  function KindOf(t: Term): (k: Option<TermKind>)
    ensures k.None? <==> (t.TermBinary? || t.TermQuantifier? || t.TermCaseOf? || t.TermWithExplicitType?)
  {
    match t
    case TermApp(_, _) => Some(App)
    case TermList(_) => Some(List)
    case TermSet(_) => Some(Set)
    case TermRecord(_) => Some(Record)
    case TermTuple(_) => Some(Tuple)
    case TermIdent(_) => Some(Ident)
    case TermNAry(_, _) => Some(NAry)
    case BoolConst(_) => Some(BoolLit)
    case NatConst(_) => Some(NatLit)
    case IntConst(_) => Some(IntLit)
    case StringConst(_) => Some(StringLit)
    case TermBinary(_, _, _) => None
    case TermQuantifier(_, _, _, _) => None
    case TermCaseOf(_, _) => None
    case TermWithExplicitType(_, _) => None
  }

  /** The handler of `v` for kind `k`. */
  function Handler<R>(v: TermVisitor<R>, k: TermKind): Term -> R
  {
    match k
    case App => v.visitTermApp
    case List => v.visitTermList
    case Set => v.visitTermSet
    case Record => v.visitTermRecord
    case Tuple => v.visitTermTuple
    case Ident => v.visitTermIdent
    case NAry => v.visitTermNAry
    case BoolLit => v.visitBoolConst
    case NatLit => v.visitNatConst
    case IntLit => v.visitIntConst
    case StringLit => v.visitStringConst
  }

  /** Dispatch `t` to the handler for its own variant. */
  function Visit<R>(v: TermVisitor<R>, t: Term): (r: Option<R>)
    ensures r.Some? <==> KindOf(t).Some?
    ensures t.TermApp? ==> r == Some(v.visitTermApp(t))
    ensures t.TermIdent? ==> r == Some(v.visitTermIdent(t))
    ensures t.StringConst? ==> r == Some(v.visitStringConst(t))
  {
    match t
    case TermApp(_, _) => Some(v.visitTermApp(t))
    case TermList(_) => Some(v.visitTermList(t))
    case TermSet(_) => Some(v.visitTermSet(t))
    case TermRecord(_) => Some(v.visitTermRecord(t))
    case TermTuple(_) => Some(v.visitTermTuple(t))
    case TermIdent(_) => Some(v.visitTermIdent(t))
    case TermNAry(_, _) => Some(v.visitTermNAry(t))
    case BoolConst(_) => Some(v.visitBoolConst(t))
    case NatConst(_) => Some(v.visitNatConst(t))
    case IntConst(_) => Some(v.visitIntConst(t))
    case StringConst(_) => Some(v.visitStringConst(t))
    case TermBinary(_, _, _) => None
    case TermQuantifier(_, _, _, _) => None
    case TermCaseOf(_, _) => None
    case TermWithExplicitType(_, _) => None
  }

  /** Visit calls exactly the handler of the term's own variant and no other. */
  lemma VisitDispatchesOnKind<R>(v: TermVisitor<R>, t: Term)
    requires KindOf(t).Some?
    ensures Visit(v, t) == Some(Handler(v, KindOf(t).value)(t))
  {
  }

  /** Visit the elements of `list` in order, collecting the results. */
  method VisitList<R>(v: TermVisitor<R>, list: seq<Term>) returns (r: Option<seq<R>>)
    ensures r.Some? <==> forall i :: 0 <= i < |list| ==> KindOf(list[i]).Some?
    ensures r.Some? ==> |r.value| == |list|
    ensures r.Some? ==> forall i :: 0 <= i < |list| ==> Visit(v, list[i]) == Some(r.value[i])
  {
    var result: seq<R> := [];
    var k := 0;
    while k < |list|
      invariant 0 <= k <= |list|
      invariant |result| == k
      invariant forall i :: 0 <= i < k ==> KindOf(list[i]).Some? && Visit(v, list[i]) == Some(result[i])
    {
      var x := Visit(v, list[k]);
      if x.None? {
        return None;
      }
      result := result + [x.value];
      k := k + 1;
    }
    return Some(result);
  }

  /** The four type variants a type visitor handles. */
  datatype TypeIsaVisitor<R> = TypeIsaVisitor(
    visitTupleType: TypeIsa -> R,
    visitArrowType: TypeIsa -> R,
    visitDataType: TypeIsa -> R,
    visitPrimitiveType: TypeIsa -> R)

  function VisitType<R>(v: TypeIsaVisitor<R>, t: TypeIsa): (r: Option<R>)
    ensures r.Some? <==> !t.VarType?
    ensures t.TupleType? ==> r == Some(v.visitTupleType(t))
    ensures t.ArrowType? ==> r == Some(v.visitArrowType(t))
    ensures t.DataType? ==> r == Some(v.visitDataType(t))
    ensures t.PrimitiveType? ==> r == Some(v.visitPrimitiveType(t))
  {
    match t
    case TupleType(_) => Some(v.visitTupleType(t))
    case ArrowType(_, _) => Some(v.visitArrowType(t))
    case DataType(_, _) => Some(v.visitDataType(t))
    case PrimitiveType(_) => Some(v.visitPrimitiveType(t))
    case VarType(_) => None
  }

  method VisitTypeList<R>(v: TypeIsaVisitor<R>, list: seq<TypeIsa>) returns (r: Option<seq<R>>)
    ensures r.Some? <==> forall i :: 0 <= i < |list| ==> !list[i].VarType?
    ensures r.Some? ==> |r.value| == |list|
    ensures r.Some? ==> forall i :: 0 <= i < |list| ==> VisitType(v, list[i]) == Some(r.value[i])
  {
    var result: seq<R> := [];
    var k := 0;
    while k < |list|
      invariant 0 <= k <= |list|
      invariant |result| == k
      invariant forall i :: 0 <= i < k ==> !list[i].VarType? && VisitType(v, list[i]) == Some(result[i])
    {
      var x := VisitType(v, list[k]);
      if x.None? {
        return None;
      }
      result := result + [x.value];
      k := k + 1;
    }
    return Some(result);
  }

  /** An outer-declaration visitor handles function and definition declarations only. */
  datatype OuterDeclVisitor<R> = OuterDeclVisitor(
    visitFunDecl: OuterDecl -> R,
    visitDefDecl: OuterDecl -> R)

  function VisitDecl<R>(v: OuterDeclVisitor<R>, d: OuterDecl): (r: Option<R>)
    ensures r.Some? <==> (d.FunDecl? || d.DefDecl?)
    ensures d.FunDecl? ==> r == Some(v.visitFunDecl(d))
    ensures d.DefDecl? ==> r == Some(v.visitDefDecl(d))
  {
    match d
    case FunDecl(_, _, _) => Some(v.visitFunDecl(d))
    case DefDecl(_, _) => Some(v.visitDefDecl(d))
    case _ => None
  }
}
