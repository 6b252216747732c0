/**
 * The index-notation grammar the rewriters of
 * include/taco/index_notation/index_notation_rewriter.h walk: nine
 * expression kinds and five statement kinds. Nodes are immutable values.
 */
module IndexNotation {
  import opened Results
  import opened Types

  /** An index variable, identified by its name. */
  datatype IndexVar = IndexVar(name: string)

  /** The tensor an access reads or an assignment writes, identified by its name. */
  datatype TensorVar = TensorVar(name: string)

  /** The operator a reduction combines with, or an assignment accumulates with. */
  datatype BinaryOp = AddOp | SubOp | MulOp | DivOp

  datatype IndexExpr =
    | Access(tensor: TensorVar, indices: seq<IndexVar>)
    | Literal(dtype: DataType, raw: seq<bv8>)
    | Neg(a: IndexExpr)
    | Sqrt(a: IndexExpr)
    | Add(a: IndexExpr, b: IndexExpr)
    | Sub(a: IndexExpr, b: IndexExpr)
    | Mul(a: IndexExpr, b: IndexExpr)
    | Div(a: IndexExpr, b: IndexExpr)
    | Reduction(op: BinaryOp, v: IndexVar, a: IndexExpr)

  /**
   * Statements. The left-hand side of an assignment is an access, kept as
   * its tensor and index variables; `op` is the compound operator, if any.
   */
  datatype IndexStmt =
    | Assignment(lhsTensor: TensorVar, lhsIndices: seq<IndexVar>, rhs: IndexExpr, op: Option<BinaryOp>)
    | Forall(v: IndexVar, body: IndexStmt)
    | Where(consumer: IndexStmt, producer: IndexStmt)
    | Multi(stmts: seq<IndexStmt>)
    | Sequence(stmts: seq<IndexStmt>)

  /** The index variables an expression mentions, in accesses and as reduction variables. */
  function Vars(e: IndexExpr): set<IndexVar>
  {
    match e
    case Access(_, indices) => set k | 0 <= k < |indices| :: indices[k]
    case Literal(_, _) => {}
    case Neg(a) => Vars(a)
    case Sqrt(a) => Vars(a)
    case Add(a, b) => Vars(a) + Vars(b)
    case Sub(a, b) => Vars(a) + Vars(b)
    case Mul(a, b) => Vars(a) + Vars(b)
    case Div(a, b) => Vars(a) + Vars(b)
    case Reduction(_, v, a) => {v} + Vars(a)
  }
}
