/** The part of Python's `ast` node family the transformer walks. The
    parser itself (`ast.parse`) is not modelled: a tree of these nodes is
    the transformer's input. Constructors the transformer has no visitor
    for (`BoolOp`, `UnaryOp`, `Pass`, and the catch-alls `OtherExpr` /
    `OtherStmt` for every remaining node type, named by their class) are
    kept so that the model can say what happens to them. Numbers are
    integers. */
module PyAst {
  import opened Results

  /** `ast.operator`: the binary arithmetic operators. */
  datatype BinOperator =
    | Add | Sub | Mult | Div | Mod | Pow
    | FloorDiv | MatMult | LShift | RShift | BitOr | BitXor | BitAnd

  /** `ast.cmpop`: the comparison operators. */
  datatype CmpOperator = Eq | NotEq | Lt | LtE | Gt | GtE | Is | IsNot | In | NotIn

  datatype BoolOperator = And | Or

  datatype UnaryOperator = Not | USub | UAdd | Invert

  /** The payload of an `ast.Constant`. */
  datatype Constant = StrConst(s: string) | BoolConst(b: bool) | NoneConst | IntConst(i: int)

  datatype Expr =
    | Name(id: string)
    | Const(constant: Constant)
    | BinOp(left: Expr, op: BinOperator, right: Expr)
    | Compare(left: Expr, ops: seq<CmpOperator>, comparators: seq<Expr>)
    | Call(func: Expr, args: seq<Expr>)
    | List(elts: seq<Expr>)
      /** A `None` key is the `**mapping` unpacking form. */
    | Dict(keys: seq<Option<Expr>>, values: seq<Expr>)
      /** An f-string; its parts are string constants and `FormattedValue`s. */
    | JoinedStr(parts: seq<Expr>)
    | FormattedValue(formatted: Expr)
    | BoolOp(boolOp: BoolOperator, operands: seq<Expr>)
    | UnaryOp(unaryOp: UnaryOperator, operand: Expr)
      /** Any other expression node, named by its class, with the
          expressions among its fields (a `Subscript`'s value and slice). */
    | OtherExpr(kind: string, children: seq<Expr>)

  datatype Stmt =
    | FunctionDef(name: string, params: seq<string>, body: seq<Stmt>)
    | Return(result: Option<Expr>)
    | Assign(targets: seq<Expr>, value: Expr)
    | AugAssign(target: Expr, op: BinOperator, value: Expr)
    | If(test: Expr, body: seq<Stmt>, orelse: seq<Stmt>)
    | For(target: Expr, iter: Expr, body: seq<Stmt>)
    | While(test: Expr, body: seq<Stmt>)
    | ExprStmt(value: Expr)
    | Pass
    | OtherStmt(kind: string)

  datatype Module = Module(body: seq<Stmt>)

  /** The class name of an operator node. */
  function BinOperatorName(op: BinOperator): string {
    match op
    case Add => "Add"
    case Sub => "Sub"
    case Mult => "Mult"
    case Div => "Div"
    case Mod => "Mod"
    case Pow => "Pow"
    case FloorDiv => "FloorDiv"
    case MatMult => "MatMult"
    case LShift => "LShift"
    case RShift => "RShift"
    case BitOr => "BitOr"
    case BitXor => "BitXor"
    case BitAnd => "BitAnd"
  }

  function CmpOperatorName(op: CmpOperator): string {
    match op
    case Eq => "Eq"
    case NotEq => "NotEq"
    case Lt => "Lt"
    case LtE => "LtE"
    case Gt => "Gt"
    case GtE => "GtE"
    case Is => "Is"
    case IsNot => "IsNot"
    case In => "In"
    case NotIn => "NotIn"
  }
}
