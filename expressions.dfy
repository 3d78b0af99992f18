/**
 * A minimal stand-in for the expression collaborator: an integer literal
 * or a reference to a label, resolved against a symbol table only when an
 * instruction is encoded. The full expression language (arithmetic and
 * bitwise operators) is not part of this model.
 */
module Expressions {
  import opened Wrappers

  datatype Expr = Constant(value: int) | Identifier(name: string)

  datatype ExprError = UnresolvedSymbol(name: string) | ArithmeticError

  /** Evaluates `e`; a reference to a label missing from `symbols` is an error. */
  function Eval(e: Expr, symbols: map<string, int>): (r: Result<int, ExprError>)
    ensures r.Err? <==> e.Identifier? && e.name !in symbols
    ensures r.Err? ==> r.error == UnresolvedSymbol(e.name)
    ensures r.Ok? && e.Identifier? ==> r.value == symbols[e.name]
  {
    match e
    case Constant(v) => Ok(v)
    case Identifier(n) => if n in symbols then Ok(symbols[n]) else Err(UnresolvedSymbol(n))
  }
}
