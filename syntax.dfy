/**
 * The raw, name-based syntax tree produced by the parser and consumed by
 * `bind`, together with the event stream through which `bind` walks it.
 * The node classes' field-by-field `__eq__` is Dafny's datatype equality.
 */
module Syntax {

  datatype Ast =
    | Name(name: string)
    | Apply(fn: Ast, arg: Ast)
    | Function(name: string, body: Ast)

  /** The events of the raw tree's traversal protocol. */
  datatype AstToken =
    | AstName(text: string)
    | AstOpenFunction(text: string)
    | AstCloseFunction(text: string)
    | AstOpenApply
    | AstCloseApply

  /**
   * The traversal contract of the raw tree: a pre-order walk with explicit
   * close markers, the same shape as the binding-resolved tree's own walk.
   */
  function AstEvents(t: Ast): seq<AstToken>
  {
    match t
    case Name(x) => [AstName(x)]
    case Apply(f, a) => [AstOpenApply] + AstEvents(f) + AstEvents(a) + [AstCloseApply]
    case Function(x, b) => [AstOpenFunction(x)] + AstEvents(b) + [AstCloseFunction(x)]
  }
}
