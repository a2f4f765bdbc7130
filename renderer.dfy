/**
  * The Markdown-to-Markdown renderer: an object whose fields carry the list depth, the
  * per-depth ordered-list counters and loose-item flags, the last text fragment and the length
  * of the last write, and whose methods append canonical Markdown to a writer.
  * Each emission routine is proved to move `Snapshot()` exactly as its step function does;
  * the block-quote loop and its body state the new value of each field instead.
  */
module Markdown {
  import opened GoLib
  import opened Wrappers
  import opened MarkdownText
  import opened RenderState
  import Ast

  class Renderer {
    var orderedListCounter: map<int, int>
    var paragraph: map<int, bool>
    var listDepth: int
    var lastNormalText: Bytes
    var lastOutputLen: int
    /** Everything written to the writer so far. */
    var output: Bytes

    const opts: Options
    const lib: Library

    function Snapshot(): State
      reads this
    {
      State(orderedListCounter, paragraph, listDepth, lastNormalText, lastOutputLen, output)
    }

    /** `NewRenderer`: empty maps, depth 0, nothing written. */
    constructor (opts: Options, lib: Library)
      ensures Snapshot() == Initial
      ensures this.opts == opts && this.lib == lib
    {
      orderedListCounter := map[];
      paragraph := map[];
      listDepth := 0;
      lastNormalText := [];
      lastOutputLen := 0;
      output := [];
      this.opts := opts;
      this.lib := lib;
    }

    /** `out` and `outs`. */
    method Out(d: Bytes)
      modifies this
      ensures Snapshot() == Emit(old(Snapshot()), d)
    {
      lastOutputLen := |d|;
      output := output + d;
    }

    /** A write that bypasses `out`, so `lastOutputLen` keeps its value. */
    method Write(d: Bytes)
      modifies this
      ensures Snapshot() == WriteRaw(old(Snapshot()), d)
    {
      output := output + d;
    }

    method Cr()
      modifies this
      ensures Snapshot() == CrStep(old(Snapshot()))
    {
      if lastOutputLen > 0 {
        Out("\n");
      }
    }

    method DoubleSpace()
      modifies this
      ensures Snapshot() == DoubleSpaceStep(old(Snapshot()))
    {
      Out("\n");
    }

    method RenderNode(node: Ast.Node, entering: bool) returns (status: Ast.WalkStatus)
      modifies this
      ensures (Snapshot(), status) == RenderStep(opts, lib, old(Snapshot()), node, entering)
    {
      if opts.renderNodeHook.Some? {
        var reply := opts.renderNodeHook.value(node, entering);
        Write(reply.written);
        if reply.handled {
          return reply.status;
        }
      }
      DispatchNode(node);
      status := Ast.GoToNext;
    }

    /** The type switch of `RenderNode`: the routine for the node's kind, or nothing. */
    method DispatchNode(node: Ast.Node)
      modifies this
      ensures Snapshot() == Dispatch(opts, lib, old(Snapshot()), node)
    {
      if Ast.IsInline(node) {
        DispatchInline(node);
      } else {
        DispatchBlock(node);
      }
    }

    /** The cases of the type switch for nodes inside a paragraph. */
    method DispatchInline(node: Ast.Node)
      requires Ast.IsInline(node)
      modifies this
      ensures Snapshot() == Dispatch(opts, lib, old(Snapshot()), node)
    {
      match node {
        case Text(literal) => Text(literal);
        case Softbreak => Cr();
        case Hardbreak => Out("  \n");
        case Emph(literal) => Emphasis(literal);
        case Strong(literal) => Strong(literal);
        case Del(literal) => Del(literal);
        case Link(literal, destination, title) => Link(literal, destination, title);
        case Image(destination, title) => Image(destination, title);
        case Code(literal) => Code(literal);
        case HTMLSpan(literal) => HtmlSpan(literal);
      }
    }

    /** The cases of the type switch for block nodes, and the kinds it has no case for. */
    method DispatchBlock(node: Ast.Node)
      requires !Ast.IsInline(node)
      modifies this
      ensures Snapshot() == Dispatch(opts, lib, old(Snapshot()), node)
    {
      match node {
        case BlockQuote(literal) => BlockQuote(literal);
        case CodeBlock(literal, info) => CodeBlock(literal, info);
        case Document =>
        case Paragraph => DoParagraph();
        case HTMLBlock(literal) => HtmlBlock(literal);
        case Heading(level) => Heading(level);
        case HorizontalRule => HorizontalRule();
        case List(flags) => List(flags);
        case ListItem(literal, flags) => ListItem(flags, literal);
        case Unknown =>
      }
    }

    /** Entering and leaving alike: a newline and, for an ordered list, counter 1 one level down. */
    method List(flags: Ast.ListFlags)
      modifies this
      ensures Snapshot() == ListStep(old(Snapshot()), flags)
      ensures listDepth == old(listDepth)
    {
      DoubleSpace();
      listDepth := listDepth + 1;
      if flags.ordered {
        orderedListCounter := orderedListCounter[listDepth := 1];
      }
      // the deferred decrement, run as the call returns
      listDepth := listDepth - 1;
    }

    method ListItem(flags: Ast.ListFlags, text: Bytes)
      modifies this
      ensures Snapshot() == ListItemStep(lib, old(Snapshot()), flags, text)
      ensures !GetFlag(paragraph, listDepth)
    {
      if flags.ordered {
        Write(FormatInt(Get(orderedListCounter, listDepth)) + ".");
        Write(lib.indent(text));
        orderedListCounter := orderedListCounter[listDepth := Get(orderedListCounter, listDepth) + 1];
      } else {
        Out("-");
        Write(lib.indent(text));
      }
      Out("\n");
      if GetFlag(paragraph, listDepth) {
        if !flags.endOfList {
          Out("\n");
        }
        paragraph := paragraph[listDepth := false];
      }
    }

    method HorizontalRule()
      modifies this
      ensures Snapshot() == HorizontalRuleStep(old(Snapshot()))
    {
      DoubleSpace();
      Out("---\n");
    }

    method Heading(level: int)
      modifies this
      ensures Snapshot() == HeadingStep(old(Snapshot()), level)
    {
      DoubleSpace();
      if level >= 3 {
        var s := Repeat('#', level) + " ";
        Out(s);
      }
    }

    method HtmlSpan(literal: Bytes)
      modifies this
      ensures Snapshot() == HtmlSpanStep(old(Snapshot()), literal)
    {
      Out(literal);
    }

    method HtmlBlock(literal: Bytes)
      modifies this
      ensures Snapshot() == HtmlBlockStep(old(Snapshot()), literal)
    {
      DoubleSpace();
      Out(literal);
      Out("\n");
    }

    method DoParagraph()
      modifies this
      ensures Snapshot() == ParagraphStep(old(Snapshot()))
      ensures GetFlag(paragraph, listDepth)
    {
      DoubleSpace();
      paragraph := paragraph[listDepth := true];
      Out("\n");
    }

    method CodeBlock(literal: Bytes, info: Bytes)
      modifies this
      ensures Snapshot() == CodeBlockStep(lib, old(Snapshot()), literal, info)
    {
      DoubleSpace();
      ghost var start := Snapshot();
      var text := literal;
      var lang := info;
      var fields := Fields(lang);
      var count := 0;
      var i := 0;
      while i < |fields|
        invariant 0 <= i <= |fields|
        invariant count == 0
        invariant FenceTag(fields) == FenceTag(fields[i..])
        invariant Snapshot() == start
      {
        var elt := fields[i];
        if elt[0] == '.' {
          elt := elt[1..];
        }
        assert elt == StripDot(fields[i]);
        if |elt| == 0 {
          assert fields[i..][1..] == fields[i + 1..];
          i := i + 1;
          continue;
        }
        Out("```");
        Out(elt);
        count := count + 1;
        break;
      }
      if count == 0 {
        Out("```");
      }
      Out("\n");
      var formatted := FormatCode(lib.formatSource, lang, text);
      if formatted.Some? {
        Out(formatted.value);
      } else {
        Out(text);
      }
      Out("```\n");
    }

    method Code(literal: Bytes)
      modifies this
      ensures Snapshot() == CodeStep(old(Snapshot()), literal)
    {
      Out("`");
      Out(literal);
      Out("`");
    }

    method Image(destination: Bytes, title: Bytes)
      modifies this
      ensures Snapshot() == ImageStep(old(Snapshot()), destination, title)
    {
      var alt: Bytes := [];
      Out("![");
      Out(alt);
      Out("](");
      Out(Escape(destination));
      if |title| != 0 {
        Out(" \"");
        Out(title);
        Out("\"");
      }
      Out(")");
    }

    method Link(content: Bytes, destination: Bytes, title: Bytes)
      modifies this
      ensures Snapshot() == LinkStep(old(Snapshot()), content, destination, title)
    {
      Out("[");
      Out(content);
      Out("](");
      Out(Escape(destination));
      if |title| != 0 {
        Out(" \"");
        Out(title);
        Out("\"");
      }
      Out(")");
    }

    method BlockQuote(literal: Bytes)
      modifies this
      ensures Snapshot() == BlockQuoteStep(old(Snapshot()), literal)
    {
      var text := literal;
      DoubleSpace();
      var lines := Split(text);
      QuoteLines(lines);
    }

    /** The loop of `blockQuote`: every piece but the last becomes a quoted line. */
    method QuoteLines(lines: seq<Bytes>)
      requires |lines| >= 1
      requires lastOutputLen == 1
      modifies this
      ensures output == old(output) + Quoted(lines[..|lines| - 1]) && lastOutputLen == 1
      ensures orderedListCounter == old(orderedListCounter) && paragraph == old(paragraph)
      ensures listDepth == old(listDepth) && lastNormalText == old(lastNormalText)
    {
      var i := 0;
      while i < |lines|
        invariant 0 <= i <= |lines|
        invariant i < |lines| ==> output == old(output) + Quoted(lines[..i])
        invariant i == |lines| ==> output == old(output) + Quoted(lines[..|lines| - 1])
        invariant lastOutputLen == 1
        invariant orderedListCounter == old(orderedListCounter) && paragraph == old(paragraph)
        invariant listDepth == old(listDepth) && lastNormalText == old(lastNormalText)
      {
        if i == |lines| - 1 {
          i := i + 1;
          continue;
        }
        QuotedSnoc(lines, i);
        QuoteOneLine(lines[i]);
        i := i + 1;
      }
    }

    /** One pass of the block-quote loop. */
    method QuoteOneLine(line: Bytes)
      modifies this
      ensures output == old(output) + QuoteLine(line) && lastOutputLen == 1
      ensures orderedListCounter == old(orderedListCounter) && paragraph == old(paragraph)
      ensures listDepth == old(listDepth) && lastNormalText == old(lastNormalText)
    {
      Out(">");
      if |line| != 0 {
        Out(" ");
        Out(line);
      }
      Out("\n");
    }

    method Del(literal: Bytes)
      modifies this
      ensures Snapshot() == DelStep(old(Snapshot()), literal)
    {
      Out("~~");
      Out(literal);
      Out("~~");
    }

    method Strong(literal: Bytes)
      modifies this
      ensures Snapshot() == StrongStep(opts.terminal, old(Snapshot()), literal)
    {
      if opts.terminal {
        Out(Bold);
      }
      Out("**");
      Out(literal);
      Out("**");
      if opts.terminal {
        Out(Reset);
      }
    }

    method Emphasis(literal: Bytes)
      modifies this
      ensures Snapshot() == EmphasisStep(old(Snapshot()), literal)
    {
      if |literal| == 0 {
        return;
      }
      Out("*");
      Out(literal);
      Out("*");
    }

    method Text(literal: Bytes)
      modifies this
      ensures Snapshot() == TextStep(old(Snapshot()), literal)
      ensures lastNormalText == literal
    {
      var lit := literal;
      var normalText := literal;
      if NeedsEscaping(lit, lastNormalText) {
        lit := "\\" + lit;
      }
      lastNormalText := normalText;
      if listDepth > 0 && lit == "\n" {
        return;
      }
      var cleanString := CleanWithoutTrim(lit);
      if cleanString == [] {
        return;
      }
      if SkipSpaceIfNeededNormalText(cleanString) {
        cleanString := DropFirst(cleanString);
      }
      Out(cleanString);
    }
  }
}
