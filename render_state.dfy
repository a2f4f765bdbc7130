/**
  * The renderer's state as a value, and what each emission routine does to it.
  * `Markdown.Renderer` keeps this state in fields and updates it in place. Each emission routine
  * is proved to take the state from `s` to its step function applied to `s`: `Out` to `Emit`,
  * `Write` to `WriteRaw`, the type switch (`DispatchNode`) to `Dispatch`, `DoParagraph` to
  * `ParagraphStep`, and the other routines to the step function named after them. The block-quote
  * loop and its body (`QuoteLines`, `QuoteOneLine`) state each field's new value instead.
  */
module RenderState {
  import opened GoLib
  import opened Wrappers
  import opened MarkdownText
  import Ast

  /**
    * The renderer's fields together with everything written so far.
    * The two maps follow Go's map semantics: a missing key reads as 0 or false.
    */
  datatype State = State(
    orderedListCounter: map<int, int>,
    paragraph: map<int, bool>,
    listDepth: int,
    lastNormalText: Bytes,
    lastOutputLen: int,
    output: Bytes)

  /** What a hook reports: the status to return, whether it handled the node, and what it wrote. */
  datatype HookReply = HookReply(status: Ast.WalkStatus, handled: bool, written: Bytes)

  type Hook = (Ast.Node, bool) -> HookReply

  datatype Options = Options(terminal: bool, renderNodeHook: Option<Hook>)

  /**
    * Collaborators whose code is not part of this model: the one-level indenting writer that
    * list items are written through, and Go's source formatter (None when it reports an error).
    */
  datatype Library = Library(indent: Bytes -> Bytes, formatSource: Bytes -> Option<Bytes>)

  const Initial := State(map[], map[], 0, [], 0, [])

  function Get(m: map<int, int>, k: int): int
  {
    if k in m then m[k] else 0
  }

  function GetFlag(m: map<int, bool>, k: int): bool
  {
    k in m && m[k]
  }

  /** `r` is `s` with, at most, more output: every routine only appends and keeps the list depth. */
  predicate Extends(s: State, r: State)
  {
    s.output <= r.output && r.listDepth == s.listDepth
  }

  // ---------------------------------------------------------------------------
  // Writing

  /** `out` / `outs`: append `d` and remember its length. */
  function Emit(s: State, d: Bytes): (r: State)
    ensures Extends(s, r)
  {
    s.(output := s.output + d, lastOutputLen := |d|)
  }

  /** A write that goes straight to the writer (`fmt.Fprintf`, the indenting writer, a hook). */
  function WriteRaw(s: State, d: Bytes): (r: State)
    ensures Extends(s, r)
  {
    s.(output := s.output + d)
  }

  /** `cr`: a newline only when the last write was not empty. */
  function CrStep(s: State): (r: State)
    ensures Extends(s, r)
  {
    if s.lastOutputLen > 0 then Emit(s, "\n") else s
  }

  /** `doubleSpace`: a newline, unconditionally. */
  function DoubleSpaceStep(s: State): (r: State)
    ensures Extends(s, r)
  {
    Emit(s, "\n")
  }

  // ---------------------------------------------------------------------------
  // Block routines

  function ListStep(s: State, flags: Ast.ListFlags): (r: State)
    ensures Extends(s, r)
  {
    var t := DoubleSpaceStep(s);
    if flags.ordered then t.(orderedListCounter := t.orderedListCounter[s.listDepth + 1 := 1]) else t
  }

  function ListItemStep(lib: Library, s: State, flags: Ast.ListFlags, text: Bytes): (r: State)
    ensures Extends(s, r)
  {
    var d := s.listDepth;
    var t :=
      if flags.ordered then
        var u := WriteRaw(WriteRaw(s, FormatInt(Get(s.orderedListCounter, d)) + "."), lib.indent(text));
        u.(orderedListCounter := s.orderedListCounter[d := Get(s.orderedListCounter, d) + 1])
      else
        WriteRaw(Emit(s, "-"), lib.indent(text));
    var t := Emit(t, "\n");
    if GetFlag(s.paragraph, d) then
      var t := if !flags.endOfList then Emit(t, "\n") else t;
      t.(paragraph := s.paragraph[d := false])
    else
      t
  }

  function HorizontalRuleStep(s: State): (r: State)
    ensures Extends(s, r)
  {
    Emit(DoubleSpaceStep(s), "---\n")
  }

  function HeadingStep(s: State, level: int): (r: State)
    ensures Extends(s, r)
  {
    var t := DoubleSpaceStep(s);
    if level >= 3 then Emit(t, Repeat('#', level) + " ") else t
  }

  function HtmlSpanStep(s: State, literal: Bytes): (r: State)
    ensures Extends(s, r)
  {
    Emit(s, literal)
  }

  function HtmlBlockStep(s: State, literal: Bytes): (r: State)
    ensures Extends(s, r)
  {
    Emit(Emit(DoubleSpaceStep(s), literal), "\n")
  }

  function ParagraphStep(s: State): (r: State)
    ensures Extends(s, r)
  {
    var t := DoubleSpaceStep(s);
    Emit(t.(paragraph := t.paragraph[s.listDepth := true]), "\n")
  }

  /** One leading "." removed, as the fence-tag search does to each field. */
  function StripDot(field: Bytes): Bytes
  {
    if |field| > 0 && field[0] == '.' then field[1..] else field
  }

  /** The first field that is not empty once a leading "." is removed, so stripped. */
  function FenceTag(fields: seq<Bytes>): Option<Bytes>
  {
    if fields == [] then None
    else if StripDot(fields[0]) == [] then FenceTag(fields[1..])
    else Some(StripDot(fields[0]))
  }

  /** `formatCode`: only the exact tags "Go" and "go" are handed to the formatter. */
  function FormatCode(formatSource: Bytes -> Option<Bytes>, lang: Bytes, text: Bytes): (r: Option<Bytes>)
    ensures r.Some? ==> lang == "Go" || lang == "go"
  {
    if lang == "Go" || lang == "go" then formatSource(text) else None
  }

  /** The body of a fenced block: the formatter's output when it succeeds, the literal otherwise. */
  function CodeBody(lib: Library, info: Bytes, literal: Bytes): Bytes
  {
    match FormatCode(lib.formatSource, info, literal)
    case Some(formatted) => formatted
    case None => literal
  }

  function CodeBlockStep(lib: Library, s: State, literal: Bytes, info: Bytes): (r: State)
    ensures Extends(s, r)
  {
    var t := DoubleSpaceStep(s);
    var t := match FenceTag(Fields(info))
      case Some(tag) => Emit(Emit(t, "```"), tag)
      case None => Emit(t, "```");
    Emit(Emit(Emit(t, "\n"), CodeBody(lib, info, literal)), "```\n")
  }

  /** One quoted line: "> " and the line, or a bare ">" for an empty line, then a newline. */
  function QuoteLine(line: Bytes): Bytes
  {
    ['>'] + (if |line| != 0 then [' '] + line else []) + ['\n']
  }

  function Quoted(lines: seq<Bytes>): Bytes
  {
    if lines == [] then [] else Quoted(lines[..|lines| - 1]) + QuoteLine(lines[|lines| - 1])
  }

  lemma {:induction false} QuotedSnoc(lines: seq<Bytes>, i: nat)
    requires i < |lines|
    ensures Quoted(lines[..i + 1]) == Quoted(lines[..i]) + QuoteLine(lines[i])
  {
    assert lines[..i + 1][..i] == lines[..i];
  }

  /** The pieces of a block quote's literal that end in a newline: all but the last piece. */
  function QuotedLines(literal: Bytes): seq<Bytes>
  {
    var pieces := Split(literal);
    pieces[..|pieces| - 1]
  }

  function BlockQuoteStep(s: State, literal: Bytes): (r: State)
    ensures Extends(s, r)
  {
    s.(output := s.output + "\n" + Quoted(QuotedLines(literal)), lastOutputLen := 1)
  }

  // ---------------------------------------------------------------------------
  // Inline routines

  function CodeStep(s: State, literal: Bytes): (r: State)
    ensures Extends(s, r)
  {
    Emit(Emit(Emit(s, "`"), literal), "`")
  }

  /** The part links and images share: the escaped destination, the optional title, ")". */
  function LinkTail(s: State, destination: Bytes, title: Bytes): (r: State)
    ensures Extends(s, r)
  {
    var t := Emit(s, Escape(destination));
    var t := if |title| != 0 then Emit(Emit(Emit(t, " \""), title), "\"") else t;
    Emit(t, ")")
  }

  /** An image always has empty alt text: the node gives the renderer none. */
  function ImageStep(s: State, destination: Bytes, title: Bytes): (r: State)
    ensures Extends(s, r)
  {
    LinkTail(Emit(Emit(Emit(s, "!["), []), "]("), destination, title)
  }

  function LinkStep(s: State, content: Bytes, destination: Bytes, title: Bytes): (r: State)
    ensures Extends(s, r)
  {
    LinkTail(Emit(Emit(Emit(s, "["), content), "]("), destination, title)
  }

  function DelStep(s: State, literal: Bytes): (r: State)
    ensures Extends(s, r)
  {
    Emit(Emit(Emit(s, "~~"), literal), "~~")
  }

  const Bold: Bytes := [27 as char] + "[1m"
  const Reset: Bytes := [27 as char] + "[0m"

  function StrongStep(terminal: bool, s: State, literal: Bytes): (r: State)
    ensures Extends(s, r)
  {
    var t := if terminal then Emit(s, Bold) else s;
    var t := Emit(Emit(Emit(t, "**"), literal), "**");
    if terminal then Emit(t, Reset) else t
  }

  function EmphasisStep(s: State, literal: Bytes): (r: State)
    ensures Extends(s, r)
  {
    if |literal| == 0 then s else Emit(Emit(Emit(s, "*"), literal), "*")
  }

  /** `skipSpaceIfNeededNormalText`: whatever the string, it answers no. */
  function SkipSpaceIfNeededNormalText(cleanString: Bytes): (skip: bool)
    requires |cleanString| > 0
    ensures !skip
  {
    if cleanString[0] != ' ' then false else false
  }

  function DropFirst(s: Bytes): Bytes
  {
    if s == [] then [] else s[1..]
  }

  /** A text literal with the leading backslash it gets after `lastNormalText`, if any. */
  function Escaped(literal: Bytes, lastNormalText: Bytes): Bytes
  {
    if NeedsEscaping(literal, lastNormalText) then "\\" + literal else literal
  }

  function TextStep(s: State, literal: Bytes): (r: State)
    ensures Extends(s, r)
  {
    var lit := Escaped(literal, s.lastNormalText);
    var t := s.(lastNormalText := literal);
    if t.listDepth > 0 && lit == "\n" then t
    else
      var clean := Cleaned(lit);
      if clean == [] then t
      else
        var clean := if SkipSpaceIfNeededNormalText(clean) then DropFirst(clean) else clean;
        Emit(t, clean)
  }

  // ---------------------------------------------------------------------------
  // Dispatch

  /** The routine `RenderNode` runs for each kind of node; `entering` plays no part. */
  function Dispatch(opts: Options, lib: Library, s: State, node: Ast.Node): (r: State)
    ensures Extends(s, r)
  {
    match node
    case Text(literal) => TextStep(s, literal)
    case Softbreak => CrStep(s)
    case Hardbreak => Emit(s, "  \n")
    case Emph(literal) => EmphasisStep(s, literal)
    case Strong(literal) => StrongStep(opts.terminal, s, literal)
    case Del(literal) => DelStep(s, literal)
    case BlockQuote(literal) => BlockQuoteStep(s, literal)
    case Link(literal, destination, title) => LinkStep(s, literal, destination, title)
    case Image(destination, title) => ImageStep(s, destination, title)
    case Code(literal) => CodeStep(s, literal)
    case CodeBlock(literal, info) => CodeBlockStep(lib, s, literal, info)
    case Document => s
    case Paragraph => ParagraphStep(s)
    case HTMLSpan(literal) => HtmlSpanStep(s, literal)
    case HTMLBlock(literal) => HtmlBlockStep(s, literal)
    case Heading(level) => HeadingStep(s, level)
    case HorizontalRule => HorizontalRuleStep(s)
    case List(flags) => ListStep(s, flags)
    case ListItem(literal, flags) => ListItemStep(lib, s, flags, literal)
    case Unknown => s
  }

  /**
    * One call of `RenderNode`: the hook, if there is one, is asked first and what it writes goes
    * out; if it handled the node its status is returned, otherwise the node's routine runs and
    * the walk goes on.
    */
  function RenderStep(opts: Options, lib: Library, s: State, node: Ast.Node, entering: bool): (r: (State, Ast.WalkStatus))
    ensures Extends(s, r.0)
  {
    match opts.renderNodeHook
    case Some(hook) =>
      var reply := hook(node, entering);
      var t := WriteRaw(s, reply.written);
      if reply.handled then (t, reply.status) else (Dispatch(opts, lib, t, node), Ast.GoToNext)
    case None =>
      (Dispatch(opts, lib, s, node), Ast.GoToNext)
  }

  /** The state after the walker has made the given visits, in order. */
  function Walk(opts: Options, lib: Library, s: State, events: seq<Ast.Event>): State
    decreases |events|
  {
    if events == [] then s
    else Walk(opts, lib, RenderStep(opts, lib, s, events[0].node, events[0].entering).0, events[1..])
  }
}
