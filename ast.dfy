/**
  * The document-tree nodes the renderer is handed, reduced to the attributes it reads.
  * The tree itself and the walk over it belong to the parser library; here a node is a value.
  */
module Ast {
  import opened GoLib

  /** The two bits of a list's flag set that the renderer tests. */
  datatype ListFlags = ListFlags(ordered: bool, endOfList: bool)

  datatype Node =
    | Text(literal: Bytes)
    | Softbreak
    | Hardbreak
    | Emph(literal: Bytes)
    | Strong(literal: Bytes)
    | Del(literal: Bytes)
    | BlockQuote(literal: Bytes)
    | Link(literal: Bytes, destination: Bytes, title: Bytes)
    | Image(destination: Bytes, title: Bytes)
    | Code(literal: Bytes)
    | CodeBlock(literal: Bytes, info: Bytes)
    | Document
    | Paragraph
    | HTMLSpan(literal: Bytes)
    | HTMLBlock(literal: Bytes)
    | Heading(level: int)
    | HorizontalRule
    | List(listFlags: ListFlags)
    | ListItem(literal: Bytes, listFlags: ListFlags)
      /** Any other kind (tables and their parts, footnotes, ...): the renderer skips it. */
    | Unknown

  /** The kinds that occur inside a paragraph (span-level nodes). */
  predicate IsInline(n: Node)
  {
    n.Text? || n.Softbreak? || n.Hardbreak? || n.Emph? || n.Strong? || n.Del? || n.Link?
    || n.Image? || n.Code? || n.HTMLSpan?
  }

  /** What a visit tells the walker to do next. */
  datatype WalkStatus = GoToNext | SkipChildren | Terminate

  /** One visit of the walker: a node, on the way in or on the way out. */
  datatype Event = Event(node: Node, entering: bool)
}
