/** The policy syntax tree built by the VAULT parser and walked by its evaluator. */
module VaultAst {
  import opened Options

  datatype Variable =
    | Hour | Weekday | DayOfMonth | SecondsSinceBoot
    | PulseMode | Tether | NetworkSsid | OracleScore
    | UnknownVariable

  datatype Operator = Eq | Ne | Lt | Le | Gt | Ge | In | Between | NoOperator

  datatype Value =
    | Number(number: real)
    | Word(word: string)
    | Quoted(word: string)
    | List(list: seq<string>)
    | Range(lo: real, hi: real)

  datatype Expr =
    | Pred(variable: Variable, op: Operator, value: Value)
    | Not(arg: Expr)
    | And(left: Expr, right: Expr)
    | Or(left: Expr, right: Expr)

  /** A parsed policy; `relock` is the relock_after duration in seconds, if declared. */
  datatype Policy = Policy(allow: Expr, relock: Option<int>)
}
