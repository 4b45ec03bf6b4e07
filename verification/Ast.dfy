/** The syntax tree the parser builds and the compiler reads. Line numbers and
    the lazily resolved symbol id are dropped; a float literal is its 64 bits
    and a binary literal the place of its bytes in the source. */
module Ast {

  datatype Node =
    | IntLiteral(intVal: int)
    | FloatLiteral(bits: nat)
    | StringLiteral(text: string)
    | BoolLiteral(boolVal: bool)
    | NullLiteral
    | BinaryLiteral(source: nat, size: nat, compressed: bool)
    | Symbol(name: string)
    | List(children: seq<Node>)
    | DotAccess(obj: Node, field: string, index: int)  // an empty field marks an integer index
    | ColonAccess(obj: Node, method_name: string)
}
