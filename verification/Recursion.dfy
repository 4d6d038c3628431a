/**
 Recursive WITH terms (algebra/check_recursion.go, algebra/with.go): only linear recursion is
 supported, that is, the recursive arm of a UNION names the term exactly once and the anchor never.
 A visitor with a flag and early error exits must agree with that count.
 */
module Recursion {
  import opened Wrappers

  datatype SetOp = Union | UnionAll | Intersect | IntersectAll | Except | ExceptAll

  datatype Select = Select(subresult: Node, order: bool, limit: bool, offset: bool, recursiveWith: bool)

  /** What the visitor meets: subresults and FROM terms. */
  datatype Node =
    | SelectTerm(query: Select)
    | Subselect(from: Option<Node>)
    | KeyspaceTerm
    | ExpressionTerm(identifier: Option<string>)
    | SubqueryTerm(subquery: Select)
    | Join(left: Node, right: Node)
    | Nest(left: Node, right: Node)
    | Unnest(left: Node)
    | SetOperation(op: SetOp, first: Node, second: Node)

  datatype Problem = MoreThanOneReference | Unsupported(what: string) | InAnchor | OrderLimitOffset

  /** FROM terms that name the alias, as far as the visitor goes. */
  function References(alias: string, node: Node): nat {
    match node
    case SelectTerm(query) => References(alias, query.subresult)
    case Subselect(from) => if from.Some? then References(alias, from.value) else 0
    case ExpressionTerm(identifier) => if identifier == Some(alias) then 1 else 0
    case Join(left, right) => References(alias, left) + References(alias, right)
    case SetOperation(_, first, second) => References(alias, first) + References(alias, second)
    case _ => 0
  }

  /** A NEST or UNNEST, as far as the visitor goes. */
  predicate HasNest(node: Node) {
    match node
    case SelectTerm(query) => HasNest(query.subresult)
    case Subselect(from) => from.Some? && HasNest(from.value)
    case Join(left, right) => HasNest(left) || HasNest(right)
    case Nest(_, _) => true
    case Unnest(_) => true
    case SetOperation(_, first, second) => HasNest(first) || HasNest(second)
    case _ => false
  }

  /** The FROM terms met, from left to right; NEST, UNNEST and subqueries are not entered. */
  function FromTerms(node: Node): seq<Node> {
    match node
    case SelectTerm(query) => FromTerms(query.subresult)
    case Subselect(from) => if from.Some? then FromTerms(from.value) else []
    case Join(left, right) => FromTerms(left) + FromTerms(right)
    case SetOperation(_, first, second) => FromTerms(first) + FromTerms(second)
    case _ => [node]
  }

  lemma {:induction false} NestIsMet(node: Node)
    ensures HasNest(node) <==> exists t :: t in FromTerms(node) && (t.Nest? || t.Unnest?)
    decreases node
  {
    match node
    case SelectTerm(query) => NestIsMet(query.subresult);
    case Subselect(from) =>
      if from.Some? {
        NestIsMet(from.value);
      }
    case Join(left, right) =>
      NestIsMet(left);
      NestIsMet(right);
    case SetOperation(_, first, second) =>
      NestIsMet(first);
      NestIsMet(second);
    case _ =>
      assert node in FromTerms(node);
  }

  /** The references are the FROM terms met that are the alias. */
  lemma {:induction false} ReferencesAreMet(alias: string, node: Node)
    ensures References(alias, node) == multiset(FromTerms(node))[ExpressionTerm(Some(alias))]
    decreases node
  {
    match node
    case SelectTerm(query) => ReferencesAreMet(alias, query.subresult);
    case Subselect(from) =>
      if from.Some? {
        ReferencesAreMet(alias, from.value);
      }
    case Join(left, right) =>
      ReferencesAreMet(alias, left);
      ReferencesAreMet(alias, right);
    case SetOperation(_, first, second) =>
      ReferencesAreMet(alias, first);
      ReferencesAreMet(alias, second);
    case _ =>
  }

  class CheckRecursion {
    const alias: string
    var found: bool

    constructor (alias: string)
      ensures this.alias == alias && !found
    {
      this.alias, found := alias, false;
    }

    /** No error exactly when there is no NEST or UNNEST and, with what was found before, at most one reference. */
    method Visit(node: Node) returns (err: Option<Problem>)
      modifies this`found
      ensures err.None? <==> !HasNest(node) && References(alias, node) + (if old(found) then 1 else 0) <= 1
      ensures err.None? ==> found == (old(found) || References(alias, node) == 1)
      ensures old(found) ==> found
      decreases node
    {
      err := None;
      match node
      case SelectTerm(query) => err := Visit(query.subresult);
      case Subselect(from) =>
        if from.Some? {
          err := Visit(from.value);
        }
      case ExpressionTerm(identifier) =>
        if identifier.Some? && alias == identifier.value {
          if found {
            return Some(MoreThanOneReference);
          }
          found := true;
        }
      case Join(left, right) =>
        err := Visit(left);
        if err.None? {
          err := Visit(right);
        }
      case Nest(_, _) => err := Some(Unsupported("NEST"));
      case Unnest(_) => err := Some(Unsupported("UNNEST"));
      case SetOperation(_, first, second) =>
        err := Visit(first);
        if err.None? {
          err := Visit(second);
        }
      case _ =>
    }
  }

  /** `checkRecursive`: found without error exactly for one reference, not found without error exactly for none. */
  method CheckRecursive(alias: string, node: Node) returns (found: bool, err: Option<Problem>)
    ensures err.None? && found <==> !HasNest(node) && References(alias, node) == 1
    ensures err.None? && !found <==> !HasNest(node) && References(alias, node) == 0
  {
    var visitor := new CheckRecursion(alias);
    err := visitor.Visit(node);
    found := visitor.found;
  }

  // ---- Splitting a recursive term into anchor and recursive arm

  datatype Expr = Subquery(query: Select) | OtherExpr(text: string)

  /** An arm as a query of its own; a parenthesized arm already is one. */
  function AsSelect(arm: Node): Select {
    if arm.SelectTerm? then arm.query else Select(arm, false, false, false, false)
  }

  /** The arms of a term, when it is a union at the top. */
  function Arms(expr: Expr): Option<(Node, Node)> {
    if expr.Subquery? && expr.query.subresult.SetOperation? && (expr.query.subresult.op.Union? || expr.query.subresult.op.UnionAll?)
    then Some((expr.query.subresult.first, expr.query.subresult.second)) else None
  }

  /** The exact condition for a split. */
  predicate Splits(alias: string, expr: Expr) {
    && Arms(expr).Some?
    && var (first, second) := Arms(expr).value;
       && !HasNest(first) && References(alias, first) == 0
       && !HasNest(second) && References(alias, second) == 1
       && !expr.query.order && !expr.query.limit && !expr.query.offset
  }

  /** The exact condition for leaving the term alone. */
  predicate StaysWhole(alias: string, expr: Expr) {
    Arms(expr).Some? ==>
      var (first, second) := Arms(expr).value;
      !HasNest(first) && References(alias, first) == 0 && !HasNest(second) && References(alias, second) == 0
  }

  class With {
    const alias: string
    var expr: Expr
    var rexpr: Option<Expr>
    var isUnion: bool

    constructor (alias: string, expr: Expr)
      ensures this.alias == alias && this.expr == expr && rexpr == None && !isUnion
    {
      this.alias, this.expr, rexpr, isUnion := alias, expr, None, false;
    }

    /** `SplitRecursive`: splits, leaves the term alone, or fails; nothing changes unless it splits. */
    method SplitRecursive() returns (err: Option<Problem>)
      modifies this
      ensures err.None? <==> Splits(alias, old(expr)) || StaysWhole(alias, old(expr))
      ensures !Splits(alias, old(expr)) ==> expr == old(expr) && rexpr == old(rexpr) && isUnion == old(isUnion)
      ensures Splits(alias, old(expr)) ==>
        var (first, second) := Arms(old(expr)).value;
        && expr == Subquery(AsSelect(first))
        && rexpr == Some(Subquery(AsSelect(second).(recursiveWith := true)))
        && isUnion == (old(isUnion) || old(expr).query.subresult.op.Union?)
      ensures rexpr != old(rexpr) ==> !old(expr).query.order && !old(expr).query.limit && !old(expr).query.offset
      ensures Splits(alias, old(expr)) ==>
        && References(alias, expr.query.subresult) == 0 && !HasNest(expr.query.subresult)
        && References(alias, rexpr.value.query.subresult) == 1 && !HasNest(rexpr.value.query.subresult)
    {
      if !expr.Subquery? {
        return None;
      }
      var union := false;
      var arms: Option<(Node, Node)> := None;
      if expr.query.subresult.SetOperation? {
        match expr.query.subresult.op
        case Union =>
          union := true;
          arms := Some((expr.query.subresult.first, expr.query.subresult.second));
        case UnionAll => arms := Some((expr.query.subresult.first, expr.query.subresult.second));
        case _ =>
      }
      if arms.None? {
        return None;
      }
      var (first, second) := arms.value;
      var found;
      found, err := CheckRecursive(alias, first);
      if err.Some? {
        return;
      }
      if found {
        return Some(InAnchor);
      }
      found, err := CheckRecursive(alias, second);
      if err.Some? {
        return;
      }
      if !found {
        return None;
      }
      if expr.query.order || expr.query.limit || expr.query.offset {
        return Some(OrderLimitOffset);
      }
      expr := Subquery(AsSelect(first));
      rexpr := Some(Subquery(AsSelect(second).(recursiveWith := true)));
      if union {
        isUnion := true;
      }
    }
  }
}
