/**
 * The rewriters of include/taco/index_notation/index_notation_rewriter.h.
 *
 * A concrete rewriter is a subclass that overrides the visit handlers of
 * some node kinds. Here a rewriter carries its overriding handlers as two
 * functions: given a node, an override either produces the node's rewrite
 * (`Some`) or declines (`None`), in which case the default handler for the
 * node's kind runs: rewrite every child and rebuild a node of the same kind.
 * `rewrite` dispatches on the node kind, lets the handler store its result
 * in the protected slot `expr` (or `stmt`) and returns what is stored there.
 */
module Rewriting {
  import opened Results
  import opened IndexNotation

  /** The handlers a rewriter overrides, as a partial map from nodes to their rewrites. */
  type ExprOverride = IndexExpr -> Option<IndexExpr>
  type StmtOverride = IndexStmt -> Option<IndexStmt>

  /** A rewriter that overrides nothing: the default layer alone. */
  function NoExprOverride(): ExprOverride { _ => None }
  function NoStmtOverride(): StmtOverride { _ => None }

  /** What `rewrite(e)` returns: the overriding handler's result, or the default handler's. */
  function RewrittenExpr(ov: ExprOverride, e: IndexExpr): IndexExpr
    decreases e, 1
  {
    match ov(e)
    case Some(r) => r
    case None => DefaultExpr(ov, e)
  }

  /** The default handlers of IndexNotationRewriter for the nine expression kinds. */
  function DefaultExpr(ov: ExprOverride, e: IndexExpr): IndexExpr
    decreases e, 0
  {
    match e
    case Access(_, _) => e
    case Literal(_, _) => e
    case Neg(a) => Neg(RewrittenExpr(ov, a))
    case Sqrt(a) => Sqrt(RewrittenExpr(ov, a))
    case Add(a, b) => Add(RewrittenExpr(ov, a), RewrittenExpr(ov, b))
    case Sub(a, b) => Sub(RewrittenExpr(ov, a), RewrittenExpr(ov, b))
    case Mul(a, b) => Mul(RewrittenExpr(ov, a), RewrittenExpr(ov, b))
    case Div(a, b) => Div(RewrittenExpr(ov, a), RewrittenExpr(ov, b))
    case Reduction(op, v, a) => Reduction(op, v, RewrittenExpr(ov, a))
  }

  /** What `rewrite(s)` returns: the overriding handler's result, or the default handler's. */
  function RewrittenStmt(ovE: ExprOverride, ovS: StmtOverride, s: IndexStmt): IndexStmt
    decreases s, 1
  {
    match ovS(s)
    case Some(r) => r
    case None => DefaultStmt(ovE, ovS, s)
  }

  /** The default handlers for the five statement kinds; expressions go through the expression rewrite. */
  function DefaultStmt(ovE: ExprOverride, ovS: StmtOverride, s: IndexStmt): IndexStmt
    decreases s, 0
  {
    match s
    case Assignment(t, indices, rhs, op) => Assignment(t, indices, RewrittenExpr(ovE, rhs), op)
    case Forall(v, body) => Forall(v, RewrittenStmt(ovE, ovS, body))
    case Where(c, p) => Where(RewrittenStmt(ovE, ovS, c), RewrittenStmt(ovE, ovS, p))
    case Multi(ss) => Multi(seq(|ss|, k requires 0 <= k < |ss| => RewrittenStmt(ovE, ovS, ss[k])))
    case Sequence(ss) => Sequence(seq(|ss|, k requires 0 <= k < |ss| => RewrittenStmt(ovE, ovS, ss[k])))
  }

  /** No overriding handler fires anywhere inside `e`. */
  ghost predicate Untouched(ov: ExprOverride, e: IndexExpr)
  {
    ov(e).None? &&
    match e
    case Access(_, _) => true
    case Literal(_, _) => true
    case Neg(a) => Untouched(ov, a)
    case Sqrt(a) => Untouched(ov, a)
    case Add(a, b) => Untouched(ov, a) && Untouched(ov, b)
    case Sub(a, b) => Untouched(ov, a) && Untouched(ov, b)
    case Mul(a, b) => Untouched(ov, a) && Untouched(ov, b)
    case Div(a, b) => Untouched(ov, a) && Untouched(ov, b)
    case Reduction(_, _, a) => Untouched(ov, a)
  }

  /**
   * The default layer reconstructs faithfully: where no override fires,
   * the rewrite of an expression is the expression itself.
   */
  lemma {:induction false} UntouchedIsIdentity(ov: ExprOverride, e: IndexExpr)
    requires Untouched(ov, e)
    ensures RewrittenExpr(ov, e) == e
  {
    match e
    case Access(_, _) =>
    case Literal(_, _) =>
    case Neg(a) => UntouchedIsIdentity(ov, a);
    case Sqrt(a) => UntouchedIsIdentity(ov, a);
    case Add(a, b) => UntouchedIsIdentity(ov, a); UntouchedIsIdentity(ov, b);
    case Sub(a, b) => UntouchedIsIdentity(ov, a); UntouchedIsIdentity(ov, b);
    case Mul(a, b) => UntouchedIsIdentity(ov, a); UntouchedIsIdentity(ov, b);
    case Div(a, b) => UntouchedIsIdentity(ov, a); UntouchedIsIdentity(ov, b);
    case Reduction(_, _, a) => UntouchedIsIdentity(ov, a);
  }

  lemma {:induction false} NothingOverriddenUntouched(ov: ExprOverride, e: IndexExpr)
    requires forall x :: ov(x).None?
    ensures Untouched(ov, e)
  {
    match e
    case Access(_, _) =>
    case Literal(_, _) =>
    case Neg(a) => NothingOverriddenUntouched(ov, a);
    case Sqrt(a) => NothingOverriddenUntouched(ov, a);
    case Add(a, b) => NothingOverriddenUntouched(ov, a); NothingOverriddenUntouched(ov, b);
    case Sub(a, b) => NothingOverriddenUntouched(ov, a); NothingOverriddenUntouched(ov, b);
    case Mul(a, b) => NothingOverriddenUntouched(ov, a); NothingOverriddenUntouched(ov, b);
    case Div(a, b) => NothingOverriddenUntouched(ov, a); NothingOverriddenUntouched(ov, b);
    case Reduction(_, _, a) => NothingOverriddenUntouched(ov, a);
  }

  /** A rewriter that overrides no expression handler returns a tree equal to its input. */
  lemma DefaultExprRewriteIsIdentity(e: IndexExpr)
    ensures RewrittenExpr(NoExprOverride(), e) == e
  {
    NothingOverriddenUntouched(NoExprOverride(), e);
    UntouchedIsIdentity(NoExprOverride(), e);
  }

  /** A rewriter that overrides no handler at all returns a statement equal to its input. */
  lemma {:induction false} DefaultStmtRewriteIsIdentity(ovE: ExprOverride, ovS: StmtOverride, s: IndexStmt)
    requires forall x :: ovE(x).None?
    requires forall x :: ovS(x).None?
    ensures RewrittenStmt(ovE, ovS, s) == s
  {
    match s
    case Assignment(_, _, rhs, _) =>
      NothingOverriddenUntouched(ovE, rhs);
      UntouchedIsIdentity(ovE, rhs);
    case Forall(_, body) => DefaultStmtRewriteIsIdentity(ovE, ovS, body);
    case Where(c, p) =>
      DefaultStmtRewriteIsIdentity(ovE, ovS, c);
      DefaultStmtRewriteIsIdentity(ovE, ovS, p);
    case Multi(ss) =>
      forall k | 0 <= k < |ss| ensures RewrittenStmt(ovE, ovS, ss[k]) == ss[k] {
        DefaultStmtRewriteIsIdentity(ovE, ovS, ss[k]);
      }
    case Sequence(ss) =>
      forall k | 0 <= k < |ss| ensures RewrittenStmt(ovE, ovS, ss[k]) == ss[k] {
        DefaultStmtRewriteIsIdentity(ovE, ovS, ss[k]);
      }
  }

  /**
   * IndexNotationRewriter with its protected result slots. The handlers a
   * subclass overrides are fixed when it is built.
   */
  class IndexNotationRewriter {
    const exprOverride: ExprOverride
    const stmtOverride: StmtOverride

    /** Assigned by visit handlers to replace the visited expression. */
    var expr: IndexExpr
    /** Assigned by visit handlers to replace the visited statement. */
    var stmt: IndexStmt

    constructor (exprOverride: ExprOverride, stmtOverride: StmtOverride, initialExpr: IndexExpr, initialStmt: IndexStmt)
      ensures this.exprOverride == exprOverride && this.stmtOverride == stmtOverride
      ensures expr == initialExpr && stmt == initialStmt
    {
      this.exprOverride := exprOverride;
      this.stmtOverride := stmtOverride;
      expr := initialExpr;
      stmt := initialStmt;
    }

    /** ExprRewriterStrict::rewrite: dispatch to the handler, then return the `expr` slot. */
    method RewriteExpr(e: IndexExpr) returns (r: IndexExpr)
      modifies this`expr
      ensures r == expr
      ensures r == RewrittenExpr(exprOverride, e)
      decreases e, 2
    {
      AcceptExpr(e);
      r := expr;
    }

    /** Double dispatch: the most-derived handler for `e`'s kind runs. */
    method AcceptExpr(e: IndexExpr)
      modifies this`expr
      ensures expr == RewrittenExpr(exprOverride, e)
      decreases e, 1
    {
      match exprOverride(e)
      case Some(r) => expr := r;
      case None => VisitExpr(e);
    }

    /** The default handlers: rewrite every child, rebuild the node, store it in `expr`. */
    method VisitExpr(e: IndexExpr)
      modifies this`expr
      ensures expr == DefaultExpr(exprOverride, e)
      decreases e, 0
    {
      match e
      case Access(_, _) =>
        expr := e;
      case Literal(_, _) =>
        expr := e;
      case Neg(a) =>
        var a' := RewriteExpr(a);
        expr := Neg(a');
      case Sqrt(a) =>
        var a' := RewriteExpr(a);
        expr := Sqrt(a');
      case Add(a, b) =>
        var a' := RewriteExpr(a);
        var b' := RewriteExpr(b);
        expr := Add(a', b');
      case Sub(a, b) =>
        var a' := RewriteExpr(a);
        var b' := RewriteExpr(b);
        expr := Sub(a', b');
      case Mul(a, b) =>
        var a' := RewriteExpr(a);
        var b' := RewriteExpr(b);
        expr := Mul(a', b');
      case Div(a, b) =>
        var a' := RewriteExpr(a);
        var b' := RewriteExpr(b);
        expr := Div(a', b');
      case Reduction(op, v, a) =>
        var a' := RewriteExpr(a);
        expr := Reduction(op, v, a');
    }

    /** IndexNotationRewriterStrict::rewrite: dispatch to the handler, then return the `stmt` slot. */
    method RewriteStmt(s: IndexStmt) returns (r: IndexStmt)
      modifies this`expr, this`stmt
      ensures r == stmt
      ensures r == RewrittenStmt(exprOverride, stmtOverride, s)
      decreases s, 3
    {
      AcceptStmt(s);
      r := stmt;
    }

    method AcceptStmt(s: IndexStmt)
      modifies this`expr, this`stmt
      ensures stmt == RewrittenStmt(exprOverride, stmtOverride, s)
      decreases s, 2
    {
      match stmtOverride(s)
      case Some(r) => stmt := r;
      case None => VisitStmt(s);
    }

    /** The default statement handlers; child expressions go through the expression rewrite. */
    method VisitStmt(s: IndexStmt)
      modifies this`expr, this`stmt
      ensures stmt == DefaultStmt(exprOverride, stmtOverride, s)
      decreases s, 1
    {
      match s
      case Assignment(t, indices, rhs, op) =>
        var rhs' := RewriteExpr(rhs);
        stmt := Assignment(t, indices, rhs', op);
      case Forall(v, body) =>
        var body' := RewriteStmt(body);
        stmt := Forall(v, body');
      case Where(c, p) =>
        var c' := RewriteStmt(c);
        var p' := RewriteStmt(p);
        stmt := Where(c', p');
      case Multi(ss) =>
        var ss' := RewriteEach(s, ss);
        stmt := Multi(ss');
      case Sequence(ss) =>
        var ss' := RewriteEach(s, ss);
        stmt := Sequence(ss');
    }

    /** Rewrite the children of a Multi or Sequence node one after the other. */
    method RewriteEach(parent: IndexStmt, ss: seq<IndexStmt>) returns (ss': seq<IndexStmt>)
      requires (parent.Multi? || parent.Sequence?) && parent.stmts == ss
      modifies this`expr, this`stmt
      ensures ss' == seq(|ss|, k requires 0 <= k < |ss| => RewrittenStmt(exprOverride, stmtOverride, ss[k]))
      decreases parent, 0
    {
      ss' := [];
      var i := 0;
      while i < |ss|
        invariant 0 <= i <= |ss|
        invariant |ss'| == i
        invariant forall k :: 0 <= k < i ==> ss'[k] == RewrittenStmt(exprOverride, stmtOverride, ss[k])
      {
        assert ss[i] in parent.stmts;
        var r := RewriteStmt(ss[i]);
        ss' := ss' + [r];
        i := i + 1;
      }
    }
  }

  // ---------------------------------------------------------------------
  // replace
  // ---------------------------------------------------------------------

  /** The override of a substitution: a node that is a key is replaced by its image. */
  function SubstituteExprs(m: map<IndexExpr, IndexExpr>): ExprOverride
  {
    e => if e in m then Some(m[e]) else None
  }

  function SubstituteStmts(m: map<IndexStmt, IndexStmt>): StmtOverride
  {
    s => if s in m then Some(m[s]) else None
  }

  /**
   * `replace(expr, substitutions)`: every sub-expression that is a key is
   * replaced by its image, without looking inside the image; the rest is
   * rebuilt by the default rewriter.
   */
  function ReplaceExprs(e: IndexExpr, m: map<IndexExpr, IndexExpr>): (r: IndexExpr)
    ensures e in m ==> r == m[e]
    ensures e !in m && (e.Access? || e.Literal?) ==> r == e
    ensures e !in m && e.Neg? ==> r == Neg(ReplaceExprs(e.a, m))
    ensures e !in m && e.Sqrt? ==> r == Sqrt(ReplaceExprs(e.a, m))
    ensures e !in m && e.Add? ==> r == Add(ReplaceExprs(e.a, m), ReplaceExprs(e.b, m))
    ensures e !in m && e.Sub? ==> r == Sub(ReplaceExprs(e.a, m), ReplaceExprs(e.b, m))
    ensures e !in m && e.Mul? ==> r == Mul(ReplaceExprs(e.a, m), ReplaceExprs(e.b, m))
    ensures e !in m && e.Div? ==> r == Div(ReplaceExprs(e.a, m), ReplaceExprs(e.b, m))
    ensures e !in m && e.Reduction? ==> r == Reduction(e.op, e.v, ReplaceExprs(e.a, m))
  {
    var ov := SubstituteExprs(m);
    assert ov(e) == if e in m then Some(m[e]) else None;
    assert e !in m ==> RewrittenExpr(ov, e) == DefaultExpr(ov, e);
    RewrittenExpr(ov, e)
  }

  /** Nothing in `e` is a key of `m`. */
  ghost predicate NoKeyWithin(e: IndexExpr, m: map<IndexExpr, IndexExpr>)
  {
    Untouched(SubstituteExprs(m), e)
  }

  /** An expression none of whose sub-expressions is a key comes back unchanged; in particular with an empty map. */
  lemma ReplaceWithoutMatchIsIdentity(e: IndexExpr, m: map<IndexExpr, IndexExpr>)
    requires NoKeyWithin(e, m) || m == map[]
    ensures ReplaceExprs(e, m) == e
  {
    if m == map[] {
      NothingOverriddenUntouched(SubstituteExprs(m), e);
    }
    UntouchedIsIdentity(SubstituteExprs(m), e);
  }

  /**
   * Substitution is single-shot: with `A(i) -> 0.0`, `A(i) + B(i)` becomes
   * `0.0 + B(i)`, and the literal put in is not rewritten again.
   */
  lemma ReplaceSingleShot(A: TensorVar, B: TensorVar, i: IndexVar, zero: IndexExpr)
    requires zero.Literal? && A != B
    ensures ReplaceExprs(Add(Access(A, [i]), Access(B, [i])), map[Access(A, [i]) := zero])
         == Add(zero, Access(B, [i]))
  {
    var m := map[Access(A, [i]) := zero];
    assert Access(B, [i]) != Access(A, [i]);
    assert Add(Access(A, [i]), Access(B, [i])) !in m;
  }

  /**
   * `replace(stmt, exprSubstitutions, stmtSubstitutions)`: statements that
   * are keys of the statement map and expressions that are keys of the
   * expression map are replaced; everything else is rebuilt.
   */
  function ReplaceStmts(s: IndexStmt, em: map<IndexExpr, IndexExpr>, sm: map<IndexStmt, IndexStmt>): (r: IndexStmt)
    ensures s in sm ==> r == sm[s]
    ensures s !in sm && s.Assignment? ==>
      r == Assignment(s.lhsTensor, s.lhsIndices, ReplaceExprs(s.rhs, em), s.op)
    ensures s !in sm && s.Forall? ==> r == Forall(s.v, ReplaceStmts(s.body, em, sm))
    ensures s !in sm && s.Where? ==>
      r == Where(ReplaceStmts(s.consumer, em, sm), ReplaceStmts(s.producer, em, sm))
    ensures s !in sm && s.Multi? ==>
      r.Multi? && |r.stmts| == |s.stmts| &&
      forall k :: 0 <= k < |s.stmts| ==> r.stmts[k] == ReplaceStmts(s.stmts[k], em, sm)
    ensures s !in sm && s.Sequence? ==>
      r.Sequence? && |r.stmts| == |s.stmts| &&
      forall k :: 0 <= k < |s.stmts| ==> r.stmts[k] == ReplaceStmts(s.stmts[k], em, sm)
  {
    var ovS := SubstituteStmts(sm);
    assert ovS(s) == if s in sm then Some(sm[s]) else None;
    assert s !in sm ==> RewrittenStmt(SubstituteExprs(em), ovS, s) == DefaultStmt(SubstituteExprs(em), ovS, s);
    RewrittenStmt(SubstituteExprs(em), ovS, s)
  }

  /** With both maps empty, the statement comes back unchanged. */
  lemma ReplaceStmtsEmptyIsIdentity(s: IndexStmt)
    ensures ReplaceStmts(s, map[], map[]) == s
  {
    DefaultStmtRewriteIsIdentity(SubstituteExprs(map[]), SubstituteStmts(map[]), s);
  }

  // ---------------------------------------------------------------------
  // replace with an index-variable map
  // ---------------------------------------------------------------------

  function Rename(v: IndexVar, vm: map<IndexVar, IndexVar>): IndexVar
  {
    if v in vm then vm[v] else v
  }

  /**
   * `replace(expr, varSubstitutions)`: every occurrence of a mapped index
   * variable, in an access or as a reduction variable, becomes its image;
   * every other part of the expression is kept.
   */
  function ReplaceVars(e: IndexExpr, vm: map<IndexVar, IndexVar>): (r: IndexExpr)
    ensures Skeleton(r) == Skeleton(e)
  {
    match e
    case Access(t, indices) => Access(t, seq(|indices|, k requires 0 <= k < |indices| => Rename(indices[k], vm)))
    case Literal(_, _) => e
    case Neg(a) => Neg(ReplaceVars(a, vm))
    case Sqrt(a) => Sqrt(ReplaceVars(a, vm))
    case Add(a, b) => Add(ReplaceVars(a, vm), ReplaceVars(b, vm))
    case Sub(a, b) => Sub(ReplaceVars(a, vm), ReplaceVars(b, vm))
    case Mul(a, b) => Mul(ReplaceVars(a, vm), ReplaceVars(b, vm))
    case Div(a, b) => Div(ReplaceVars(a, vm), ReplaceVars(b, vm))
    case Reduction(op, v, a) => Reduction(op, Rename(v, vm), ReplaceVars(a, vm))
  }

  /** The structure of an expression with every index variable blanked out. */
  function Skeleton(e: IndexExpr): IndexExpr
  {
    match e
    case Access(t, indices) => Access(t, seq(|indices|, _ => IndexVar("")))
    case Literal(_, _) => e
    case Neg(a) => Neg(Skeleton(a))
    case Sqrt(a) => Sqrt(Skeleton(a))
    case Add(a, b) => Add(Skeleton(a), Skeleton(b))
    case Sub(a, b) => Sub(Skeleton(a), Skeleton(b))
    case Mul(a, b) => Mul(Skeleton(a), Skeleton(b))
    case Div(a, b) => Div(Skeleton(a), Skeleton(b))
    case Reduction(op, _, a) => Reduction(op, IndexVar(""), Skeleton(a))
  }

  /** The indices of a renamed access are exactly the images of the original indices. */
  lemma AccessRenamesEveryIndex(t: TensorVar, indices: seq<IndexVar>, vm: map<IndexVar, IndexVar>)
    ensures Vars(ReplaceVars(Access(t, indices), vm)) == set v | v in Vars(Access(t, indices)) :: Rename(v, vm)
  {
    var e := Access(t, indices);
    var renamed := seq(|indices|, k requires 0 <= k < |indices| => Rename(indices[k], vm));
    assert ReplaceVars(e, vm) == Access(t, renamed);
    forall w | w in Vars(Access(t, renamed)) ensures w in set v | v in Vars(e) :: Rename(v, vm) {
      var k :| 0 <= k < |renamed| && renamed[k] == w;
      assert indices[k] in Vars(e);
    }
    forall w | w in set v | v in Vars(e) :: Rename(v, vm) ensures w in Vars(Access(t, renamed)) {
      var v :| v in Vars(e) && Rename(v, vm) == w;
      var k :| 0 <= k < |indices| && indices[k] == v;
      assert renamed[k] == w;
    }
  }

  /** The variables of the result are exactly the images of the variables of the input. */
  lemma {:induction false} ReplaceVarsRenamesEveryOccurrence(e: IndexExpr, vm: map<IndexVar, IndexVar>)
    ensures Vars(ReplaceVars(e, vm)) == set v | v in Vars(e) :: Rename(v, vm)
  {
    match e
    case Access(t, indices) => AccessRenamesEveryIndex(t, indices, vm);
    case Literal(_, _) =>
    case Neg(a) => ReplaceVarsRenamesEveryOccurrence(a, vm);
    case Sqrt(a) => ReplaceVarsRenamesEveryOccurrence(a, vm);
    case Add(a, b) => ReplaceVarsRenamesEveryOccurrence(a, vm); ReplaceVarsRenamesEveryOccurrence(b, vm);
    case Sub(a, b) => ReplaceVarsRenamesEveryOccurrence(a, vm); ReplaceVarsRenamesEveryOccurrence(b, vm);
    case Mul(a, b) => ReplaceVarsRenamesEveryOccurrence(a, vm); ReplaceVarsRenamesEveryOccurrence(b, vm);
    case Div(a, b) => ReplaceVarsRenamesEveryOccurrence(a, vm); ReplaceVarsRenamesEveryOccurrence(b, vm);
    case Reduction(_, _, a) => ReplaceVarsRenamesEveryOccurrence(a, vm);
  }

  /** With an empty map nothing is renamed. */
  lemma {:induction false} ReplaceVarsEmptyIsIdentity(e: IndexExpr)
    ensures ReplaceVars(e, map[]) == e
  {
    match e
    case Access(_, _) =>
    case Literal(_, _) =>
    case Neg(a) => ReplaceVarsEmptyIsIdentity(a);
    case Sqrt(a) => ReplaceVarsEmptyIsIdentity(a);
    case Add(a, b) => ReplaceVarsEmptyIsIdentity(a); ReplaceVarsEmptyIsIdentity(b);
    case Sub(a, b) => ReplaceVarsEmptyIsIdentity(a); ReplaceVarsEmptyIsIdentity(b);
    case Mul(a, b) => ReplaceVarsEmptyIsIdentity(a); ReplaceVarsEmptyIsIdentity(b);
    case Div(a, b) => ReplaceVarsEmptyIsIdentity(a); ReplaceVarsEmptyIsIdentity(b);
    case Reduction(_, _, a) => ReplaceVarsEmptyIsIdentity(a);
  }

  /**
   * The index variables of an expression in the order they occur: the
   * indices of each access and each reduction variable, left to right.
   */
  function Occurrences(e: IndexExpr): seq<IndexVar>
  {
    match e
    case Access(_, indices) => indices
    case Literal(_, _) => []
    case Neg(a) => Occurrences(a)
    case Sqrt(a) => Occurrences(a)
    case Add(a, b) => Occurrences(a) + Occurrences(b)
    case Sub(a, b) => Occurrences(a) + Occurrences(b)
    case Mul(a, b) => Occurrences(a) + Occurrences(b)
    case Div(a, b) => Occurrences(a) + Occurrences(b)
    case Reduction(_, v, a) => [v] + Occurrences(a)
  }

  /** Each variable of `vs` replaced by its image, position by position. */
  function RenameAll(vs: seq<IndexVar>, vm: map<IndexVar, IndexVar>): (r: seq<IndexVar>)
    ensures |r| == |vs| && forall k :: 0 <= k < |vs| ==> r[k] == Rename(vs[k], vm)
  {
    seq(|vs|, k requires 0 <= k < |vs| => Rename(vs[k], vm))
  }

  lemma RenameAllAppend(xs: seq<IndexVar>, ys: seq<IndexVar>, vm: map<IndexVar, IndexVar>)
    ensures RenameAll(xs + ys, vm) == RenameAll(xs, vm) + RenameAll(ys, vm)
  {
    assert forall k :: 0 <= k < |xs + ys| ==> RenameAll(xs + ys, vm)[k] == (RenameAll(xs, vm) + RenameAll(ys, vm))[k];
  }

  /** Every occurrence of an index variable becomes its image at its own place. */
  lemma {:induction false} ReplaceVarsRenamesEachOccurrence(e: IndexExpr, vm: map<IndexVar, IndexVar>)
    ensures Occurrences(ReplaceVars(e, vm)) == RenameAll(Occurrences(e), vm)
  {
    match e
    case Access(_, _) =>
    case Literal(_, _) =>
    case Neg(a) => ReplaceVarsRenamesEachOccurrence(a, vm);
    case Sqrt(a) => ReplaceVarsRenamesEachOccurrence(a, vm);
    case Add(a, b) =>
      ReplaceVarsRenamesEachOccurrence(a, vm); ReplaceVarsRenamesEachOccurrence(b, vm);
      RenameAllAppend(Occurrences(a), Occurrences(b), vm);
    case Sub(a, b) =>
      ReplaceVarsRenamesEachOccurrence(a, vm); ReplaceVarsRenamesEachOccurrence(b, vm);
      RenameAllAppend(Occurrences(a), Occurrences(b), vm);
    case Mul(a, b) =>
      ReplaceVarsRenamesEachOccurrence(a, vm); ReplaceVarsRenamesEachOccurrence(b, vm);
      RenameAllAppend(Occurrences(a), Occurrences(b), vm);
    case Div(a, b) =>
      ReplaceVarsRenamesEachOccurrence(a, vm); ReplaceVarsRenamesEachOccurrence(b, vm);
      RenameAllAppend(Occurrences(a), Occurrences(b), vm);
    case Reduction(_, v, a) =>
      ReplaceVarsRenamesEachOccurrence(a, vm);
      RenameAllAppend([v], Occurrences(a), vm);
  }

  /** Expressions with the same skeleton have the same number of occurrences. */
  lemma {:induction false} SkeletonFixesOccurrenceCount(x: IndexExpr, y: IndexExpr)
    requires Skeleton(x) == Skeleton(y)
    ensures |Occurrences(x)| == |Occurrences(y)|
  {
    match x
    case Access(_, indices) =>
      assert |Skeleton(x).indices| == |indices|;
    case Literal(_, _) =>
    case Neg(a) => SkeletonFixesOccurrenceCount(a, y.a);
    case Sqrt(a) => SkeletonFixesOccurrenceCount(a, y.a);
    case Add(a, b) => SkeletonFixesOccurrenceCount(a, y.a); SkeletonFixesOccurrenceCount(b, y.b);
    case Sub(a, b) => SkeletonFixesOccurrenceCount(a, y.a); SkeletonFixesOccurrenceCount(b, y.b);
    case Mul(a, b) => SkeletonFixesOccurrenceCount(a, y.a); SkeletonFixesOccurrenceCount(b, y.b);
    case Div(a, b) => SkeletonFixesOccurrenceCount(a, y.a); SkeletonFixesOccurrenceCount(b, y.b);
    case Reduction(_, _, a) => SkeletonFixesOccurrenceCount(a, y.a);
  }

  /** An expression is determined by its skeleton and its occurrences. */
  lemma {:induction false} SkeletonAndOccurrencesDetermine(x: IndexExpr, y: IndexExpr)
    requires Skeleton(x) == Skeleton(y) && Occurrences(x) == Occurrences(y)
    ensures x == y
  {
    match x
    case Access(_, _) =>
    case Literal(_, _) =>
    case Neg(a) => SkeletonAndOccurrencesDetermine(a, y.a);
    case Sqrt(a) => SkeletonAndOccurrencesDetermine(a, y.a);
    case Add(a, b) =>
      SplitOperands(a, b, y.a, y.b);
      SkeletonAndOccurrencesDetermine(a, y.a); SkeletonAndOccurrencesDetermine(b, y.b);
    case Sub(a, b) =>
      SplitOperands(a, b, y.a, y.b);
      SkeletonAndOccurrencesDetermine(a, y.a); SkeletonAndOccurrencesDetermine(b, y.b);
    case Mul(a, b) =>
      SplitOperands(a, b, y.a, y.b);
      SkeletonAndOccurrencesDetermine(a, y.a); SkeletonAndOccurrencesDetermine(b, y.b);
    case Div(a, b) =>
      SplitOperands(a, b, y.a, y.b);
      SkeletonAndOccurrencesDetermine(a, y.a); SkeletonAndOccurrencesDetermine(b, y.b);
    case Reduction(_, v, a) =>
      assert Occurrences(a) == Occurrences(x)[1..] == Occurrences(y)[1..] == Occurrences(y.a);
      SkeletonAndOccurrencesDetermine(a, y.a);
  }

  /** Two concatenations with equally long first parts are equal part by part. */
  lemma AppendCancel(p: seq<IndexVar>, s: seq<IndexVar>, q: seq<IndexVar>, u: seq<IndexVar>)
    requires |p| == |q| && p + s == q + u
    ensures p == q && s == u
  {
    assert p == (p + s)[..|p|];
    assert q == (q + u)[..|p|];
    assert s == (p + s)[|p|..];
    assert u == (q + u)[|p|..];
  }

  /** Operands with the same skeletons split joint occurrences at the same place. */
  lemma SplitOperands(a: IndexExpr, b: IndexExpr, c: IndexExpr, d: IndexExpr)
    requires Skeleton(a) == Skeleton(c)
    requires Occurrences(a) + Occurrences(b) == Occurrences(c) + Occurrences(d)
    ensures Occurrences(a) == Occurrences(c) && Occurrences(b) == Occurrences(d)
  {
    SkeletonFixesOccurrenceCount(a, c);
    AppendCancel(Occurrences(a), Occurrences(b), Occurrences(c), Occurrences(d));
  }

  /**
   * Renaming is pinned down: any expression with the input's structure
   * whose occurrences are the renamed occurrences is the result.
   */
  lemma ReplaceVarsIsTheRenaming(e: IndexExpr, vm: map<IndexVar, IndexVar>, r: IndexExpr)
    requires Skeleton(r) == Skeleton(e) && Occurrences(r) == RenameAll(Occurrences(e), vm)
    ensures r == ReplaceVars(e, vm)
  {
    ReplaceVarsRenamesEachOccurrence(e, vm);
    SkeletonAndOccurrencesDetermine(r, ReplaceVars(e, vm));
  }

  /** With `i -> k`, `A(i, j)` becomes `A(k, j)`: the image takes the place of the variable it renames. */
  lemma RenameKeepsPositions(A: TensorVar, i: IndexVar, j: IndexVar, k: IndexVar)
    requires i != j
    ensures ReplaceVars(Access(A, [i, j]), map[i := k]) == Access(A, [k, j])
  {
    var vm := map[i := k];
    assert Rename(i, vm) == k && Rename(j, vm) == j;
    assert seq(2, n requires 0 <= n < 2 => Rename([i, j][n], vm)) == [k, j];
  }
}
