/** The abstract syntax tree handed over by the parser: named children only, each
    with the grammar field it fills, and byte offsets into the file. */
module Syntax {
  import opened Text

  datatype File = File(path: string, source: string)

  datatype Point = Point(row: nat, column: nat)

  datatype Kind =
    | Module | ImportStatement | ImportFromStatement | RelativeImport | ImportPrefix
    | DottedName | AliasedImport | DecoratedDefinition | Decorator | ClassDefinition
    | FunctionDefinition | Call | Attribute | Block
    | ArgumentList | Arguments | KeywordArgument
    | ImportDeclaration | FunctionDeclaration | MethodDeclaration | CallExpression
    | SelectorExpression | ShortVarDeclaration | ExpressionList | Identifier
    | Other(name: string)

  datatype Field =
    | NoField | NameField | AliasField | ModuleNameField | BodyField | FunctionField
    | AttributeField | ArgumentsField | OperandField | FieldField | LeftField | RightField

  datatype Child = Child(field: Field, node: Node)

  datatype Node = Node(kind: Kind, text: string, startByte: nat, endByte: nat,
                       start: Point, end: Point, children: seq<Child>)
  {
    function Line(): int {
      start.row + 1
    }

    /** `ChildByFieldName`: the first child that fills the field. */
    function ByField(field: Field): Option<Node> {
      var i := FieldIndex(children, field);
      if i < |children| then Some(children[i].node) else None
    }
  }

  /** Index of the first child that fills `field`, or the number of children. */
  function FieldIndex(children: seq<Child>, field: Field): (i: nat)
    ensures i <= |children|
    ensures i < |children| ==> children[i].field == field
    ensures forall k :: 0 <= k < i ==> children[k].field != field
  {
    if children == [] || children[0].field == field then 0
    else 1 + FieldIndex(children[1..], field)
  }
}
