/**
  * What the renderer's routines promise, one routine at a time and over a whole walk.
  */
module RenderProperties {
  import opened GoLib
  import opened Wrappers
  import opened MarkdownText
  import opened RenderState
  import Ast

  // ---------------------------------------------------------------------------
  // text

  /**
    * A text node remembers its literal whatever happens, and writes the cleaned, possibly
    * escaped literal unless that is empty or the literal is a lone newline inside a list.
    */
  lemma {:induction false} TextEffect(s: State, literal: Bytes)
    ensures var r := TextStep(s, literal);
      var lit := Escaped(literal, s.lastNormalText);
      var e := if s.listDepth > 0 && lit == "\n" then [] else Cleaned(lit);
      && r.lastNormalText == literal
      && r.output == s.output + e
      && r.lastOutputLen == (if e == [] then s.lastOutputLen else |e|)
      && r.listDepth == s.listDepth
      && r.orderedListCounter == s.orderedListCounter && r.paragraph == s.paragraph
      && NoBreaks(e) && NoDoubleSpace(e) && |e| <= |literal| + 1
  {
  }

  /** A fragment that is a lone structural byte comes out behind a backslash. */
  lemma {:induction false} TextEscapesStructural(s: State, c: char)
    requires IsStructural(c)
    ensures TextStep(s, [c]).output == s.output + ['\\', c]
  {
    var lit: Bytes := ['\\', c];
    assert Escaped([c], s.lastNormalText) == lit;
    assert NoDoubleSpace(lit);
    CleanedFixes(lit);
  }

  /** A "." is escaped exactly when the previous text fragment is all digits. */
  lemma {:induction false} TextDot(s: State)
    ensures IsNumber(s.lastNormalText) ==> TextStep(s, ".").output == s.output + "\\."
    ensures !IsNumber(s.lastNormalText) ==> TextStep(s, ".").output == s.output + "."
  {
    if IsNumber(s.lastNormalText) {
      var lit: Bytes := ['\\', '.'];
      assert Escaped(".", s.lastNormalText) == lit;
      assert NoDoubleSpace(lit);
      CleanedFixes(lit);
    } else {
      assert Escaped(".", s.lastNormalText) == ".";
      CleanedFixes(".");
    }
  }

  // ---------------------------------------------------------------------------
  // list and listItem

  /**
    * A list, entered or left, writes one newline and keeps its depth; an ordered one sets the
    * counter one level below the current depth to 1 and changes no other counter.
    */
  lemma {:induction false} ListEffect(s: State, flags: Ast.ListFlags)
    ensures var r := ListStep(s, flags);
      && r.output == s.output + "\n"
      && r.listDepth == s.listDepth
      && (flags.ordered ==> Get(r.orderedListCounter, s.listDepth + 1) == 1)
      && (forall d :: d != s.listDepth + 1 ==> Get(r.orderedListCounter, d) == Get(s.orderedListCounter, d))
      && (!flags.ordered ==> r.orderedListCounter == s.orderedListCounter)
      && r.paragraph == s.paragraph
  {
  }

  /** The marker of a list item: the current depth's counter and ".", or "-". */
  function ItemMarker(s: State, flags: Ast.ListFlags): Bytes
  {
    if flags.ordered then FormatInt(Get(s.orderedListCounter, s.listDepth)) + "." else "-"
  }

  /**
    * A list item writes its marker, the indented literal and a newline, then one more newline
    * only for a loose item that is not the last; an ordered item adds exactly 1 to the counter
    * of the current depth; afterwards the current depth is not marked loose.
    */
  lemma {:induction false} ListItemEffect(lib: Library, s: State, flags: Ast.ListFlags, text: Bytes)
    ensures var r := ListItemStep(lib, s, flags, text);
      var d := s.listDepth;
      && r.output == s.output + ItemMarker(s, flags) + lib.indent(text) + "\n"
                     + (if GetFlag(s.paragraph, d) && !flags.endOfList then "\n" else [])
      && (flags.ordered ==> Get(r.orderedListCounter, d) == Get(s.orderedListCounter, d) + 1)
      && (forall k :: k != d ==> Get(r.orderedListCounter, k) == Get(s.orderedListCounter, k))
      && (!flags.ordered ==> r.orderedListCounter == s.orderedListCounter)
      && !GetFlag(r.paragraph, d)
      && (forall k :: k != d ==> GetFlag(r.paragraph, k) == GetFlag(s.paragraph, k))
      && r.listDepth == d && r.lastNormalText == s.lastNormalText && r.lastOutputLen == 1
  {
  }

  // ---------------------------------------------------------------------------
  // blockQuote

  lemma {:induction false} QuotedNewlines(lines: seq<Bytes>)
    requires forall k :: 0 <= k < |lines| ==> '\n' !in lines[k]
    ensures Count(Quoted(lines), '\n') == |lines|
  {
    if lines != [] {
      var init := lines[..|lines| - 1];
      var line := lines[|lines| - 1];
      QuotedNewlines(init);
      CountAppend(Quoted(init), QuoteLine(line), '\n');
      var body: Bytes := if |line| != 0 then [' '] + line else [];
      CountAppend(['>'], body, '\n');
      CountAppend(['>'] + body, ['\n'], '\n');
      if |line| != 0 {
        CountAppend([' '], line, '\n');
        CountNone(line, '\n');
      }
    }
  }

  lemma {:induction false} CountNone(s: Bytes, c: char)
    requires c !in s
    ensures Count(s, c) == 0
  {
    if s != [] {
      CountNone(s[1..], c);
    }
  }

  /**
    * A block quote writes a newline and then one quoted line per newline of its literal; the
    * quoted lines are the literal's newline-terminated lines, and what follows the last newline
    * is not written.
    */
  lemma {:induction false} BlockQuoteEffect(s: State, literal: Bytes)
    ensures var lines := QuotedLines(literal);
      var pieces := Split(literal);
      && |lines| == Count(literal, '\n')
      && (forall k :: 0 <= k < |lines| ==> '\n' !in lines[k])
      && Terminated(lines) + pieces[|pieces| - 1] == literal
      && BlockQuoteStep(s, literal).output == s.output + "\n" + Quoted(lines)
      && Count(Quoted(lines), '\n') == |lines|
      && BlockQuoteStep(s, literal).lastOutputLen == 1
  {
    var pieces := Split(literal);
    SplitPieces(literal);
    SplitJoin(literal);
    JoinIsTerminatedPlusLast(pieces);
    QuotedNewlines(QuotedLines(literal));
  }

  // ---------------------------------------------------------------------------
  // codeBlock

  /**
    * The fence tag is missing exactly when every field is a bare "."; otherwise it is the first
    * field, stripped of one leading ".", that is not a bare ".".
    */
  lemma {:induction false} FenceTagChoice(fields: seq<Bytes>)
    requires forall k :: 0 <= k < |fields| ==> |fields[k]| > 0
    ensures FenceTag(fields).None? <==> forall k :: 0 <= k < |fields| ==> fields[k] == "."
    ensures FenceTag(fields).Some? ==>
      exists k :: 0 <= k < |fields| && FenceTag(fields).value == StripDot(fields[k])
        && |StripDot(fields[k])| > 0 && forall j :: 0 <= j < k ==> fields[j] == "."
  {
    if fields != [] {
      var f := fields[0];
      assert StripDot(f) == [] <==> f == "." by {
        if f[0] == '.' && |f| == 1 {
          assert f == ".";
        }
      }
      FenceTagChoice(fields[1..]);
      if StripDot(f) == [] {
        if FenceTag(fields).Some? {
          var k :| 0 <= k < |fields[1..]| && FenceTag(fields[1..]).value == StripDot(fields[1..][k])
            && |StripDot(fields[1..][k])| > 0 && forall j :: 0 <= j < k ==> fields[1..][j] == ".";
          assert forall j :: 0 <= j < k + 1 ==> fields[j] == "." by {
            forall j | 0 <= j < k + 1 ensures fields[j] == "." {
              if j > 0 {
                assert fields[j] == fields[1..][j - 1];
              }
            }
          }
          assert FenceTag(fields).value == StripDot(fields[k + 1]);
        } else {
          assert forall k :: 0 <= k < |fields| ==> fields[k] == "." by {
            forall k | 0 <= k < |fields| ensures fields[k] == "." {
              if k > 0 {
                assert fields[k] == fields[1..][k - 1];
              }
            }
          }
        }
      } else {
        assert fields[0] != ".";
      }
    }
  }

  /** The fence tag is one white-space-free word. */
  lemma {:induction false} FenceTagIsWord(info: Bytes)
    ensures FenceTag(Fields(info)).Some? ==>
      |FenceTag(Fields(info)).value| > 0 && NoSpace(FenceTag(Fields(info)).value)
  {
    var fields := Fields(info);
    FenceTagChoice(fields);
    if FenceTag(fields).Some? {
      var k :| 0 <= k < |fields| && FenceTag(fields).value == StripDot(fields[k])
        && |StripDot(fields[k])| > 0 && forall j :: 0 <= j < k ==> fields[j] == ".";
      assert NoSpace(fields[k]);
    }
  }

  /** The fence as written: "```" followed by the tag, if there is one. */
  function Fence(info: Bytes): Bytes
  {
    match FenceTag(Fields(info))
    case Some(tag) => "```" + tag
    case None => "```"
  }

  /**
    * A fenced block is a newline, the fence and a newline, the body, and a closing "```" line;
    * the body is the literal itself unless the whole info string is "Go" or "go" and the
    * formatter succeeds.
    */
  lemma {:induction false} CodeBlockEffect(lib: Library, s: State, literal: Bytes, info: Bytes)
    ensures var r := CodeBlockStep(lib, s, literal, info);
      && r.output == s.output + "\n" + Fence(info) + "\n" + CodeBody(lib, info, literal) + "```\n"
      && (info != "Go" && info != "go" ==> CodeBody(lib, info, literal) == literal)
      && ((info == "Go" || info == "go") && lib.formatSource(literal).None? ==> CodeBody(lib, info, literal) == literal)
      && ((info == "Go" || info == "go") && lib.formatSource(literal).Some? ==>
            CodeBody(lib, info, literal) == lib.formatSource(literal).value)
      && r.lastOutputLen == 4
      && r.listDepth == s.listDepth && r.orderedListCounter == s.orderedListCounter
      && r.paragraph == s.paragraph && r.lastNormalText == s.lastNormalText
  {
    var t := Emit(DoubleSpaceStep(s), "```");
    var body := CodeBody(lib, info, literal);
    match FenceTag(Fields(info))
    case Some(tag) =>
      var u := Emit(t, tag);
      assert u.output == s.output + "\n" + Fence(info);
      assert Emit(Emit(Emit(u, "\n"), body), "```\n").output == u.output + "\n" + body + "```\n";
    case None =>
      assert t.output == s.output + "\n" + Fence(info);
      assert Emit(Emit(Emit(t, "\n"), body), "```\n").output == t.output + "\n" + body + "```\n";
  }

  // ---------------------------------------------------------------------------
  // heading, emphasis, strong, link

  /** A heading writes a newline and, from level 3 on, `level` hashes and a space; nothing after. */
  lemma {:induction false} HeadingEffect(s: State, level: int)
    ensures var r := HeadingStep(s, level);
      && (level >= 3 ==> r.output == s.output + "\n" + Repeat('#', level) + " ")
      && (level < 3 ==> r.output == s.output + "\n")
  {
  }

  /** An empty emphasis writes nothing and changes nothing. */
  lemma {:induction false} EmphasisEmpty(s: State)
    ensures EmphasisStep(s, []) == s
  {
  }

  lemma {:induction false} StrongEffect(terminal: bool, s: State, literal: Bytes)
    ensures terminal ==> StrongStep(terminal, s, literal).output == s.output + Bold + "**" + literal + "**" + Reset
    ensures !terminal ==> StrongStep(terminal, s, literal).output == s.output + "**" + literal + "**"
  {
  }

  /** A link whose destination has no backslash is written back as it reads. */
  lemma {:induction false} LinkEffect(s: State, content: Bytes, destination: Bytes, title: Bytes)
    requires '\\' !in destination
    ensures |title| != 0 ==>
      LinkStep(s, content, destination, title).output
        == s.output + "[" + content + "](" + destination + " \"" + title + "\")"
    ensures |title| == 0 ==>
      LinkStep(s, content, destination, title).output == s.output + "[" + content + "](" + destination + ")"
  {
    EscapeOfPlain(destination);
  }

  // ---------------------------------------------------------------------------
  // RenderNode and the walk

  /** Without a hook, a node is rendered the same on the way in and on the way out. */
  lemma {:induction false} EnteringIgnored(opts: Options, lib: Library, s: State, node: Ast.Node)
    requires opts.renderNodeHook.None?
    ensures RenderStep(opts, lib, s, node, true) == RenderStep(opts, lib, s, node, false)
    ensures RenderStep(opts, lib, s, node, true).1 == Ast.GoToNext
  {
  }

  /** A hook that handles a node decides the status, and the renderer itself writes nothing. */
  lemma {:induction false} HookHandles(opts: Options, lib: Library, s: State, node: Ast.Node, entering: bool)
    requires opts.renderNodeHook.Some?
    requires opts.renderNodeHook.value(node, entering).handled
    ensures var reply := opts.renderNodeHook.value(node, entering);
      RenderStep(opts, lib, s, node, entering) == (s.(output := s.output + reply.written), reply.status)
  {
  }

  lemma {:induction false} WalkEffect(opts: Options, lib: Library, s: State, events: seq<Ast.Event>)
    ensures Walk(opts, lib, s, events).listDepth == s.listDepth
    ensures s.output <= Walk(opts, lib, s, events).output
    decreases |events|
  {
    if events != [] {
      var t := RenderStep(opts, lib, s, events[0].node, events[0].entering).0;
      WalkEffect(opts, lib, t, events[1..]);
    }
  }

  /** A renderer made by the constructor is at depth 0 after any walk. */
  lemma {:induction false} FreshDepthStaysZero(opts: Options, lib: Library, events: seq<Ast.Event>)
    ensures Walk(opts, lib, Initial, events).listDepth == 0
  {
    WalkEffect(opts, lib, Initial, events);
  }

  /**
    * So a text node that is a lone newline is never dropped: after any walk from a fresh
    * renderer it comes out as a space.
    */
  lemma {:induction false} NewlineTextBecomesSpace(opts: Options, lib: Library, events: seq<Ast.Event>)
    ensures var s := Walk(opts, lib, Initial, events);
      TextStep(s, "\n").output == s.output + " "
  {
    var s := Walk(opts, lib, Initial, events);
    FreshDepthStaysZero(opts, lib, events);
    assert Escaped("\n", s.lastNormalText) == "\n";
    CleanedKeepsFirst("\n");
    assert Cleaned("\n") == " ";
  }

  predicate IsOrderedItem(e: Ast.Event)
  {
    e.node.ListItem? && e.node.listFlags.ordered
  }

  /** The hook, if there is one, handles the visit, so the renderer's own routine does not run. */
  predicate HookTakes(opts: Options, e: Ast.Event)
  {
    opts.renderNodeHook.Some? && opts.renderNodeHook.value(e.node, e.entering).handled
  }

  /** The number of visits, in or out, to items of ordered lists that the hook leaves to the renderer. */
  function OrderedItems(opts: Options, events: seq<Ast.Event>): nat
  {
    if events == [] then 0
    else (if IsOrderedItem(events[0]) && !HookTakes(opts, events[0]) then 1 else 0) + OrderedItems(opts, events[1..])
  }

  /** The routine of a node adds 1 to the current depth's counter exactly for an ordered item. */
  lemma {:induction false} DispatchCounter(opts: Options, lib: Library, s: State, node: Ast.Node)
    ensures var r := Dispatch(opts, lib, s, node);
      Get(r.orderedListCounter, s.listDepth)
        == Get(s.orderedListCounter, s.listDepth) + (if node.ListItem? && node.listFlags.ordered then 1 else 0)
  {
    if Ast.IsInline(node) {
      InlineKeepsCounters(opts, lib, s, node);
    } else {
      match node
      case List(flags) => ListEffect(s, flags);
      case ListItem(literal, flags) => ListItemEffect(lib, s, flags, literal);
      case _ =>
    }
  }

  /**
    * One `RenderNode` call adds 1 to the current depth's counter exactly when it visits an
    * ordered item that the hook does not handle.
    */
  lemma {:induction false} StepCounter(opts: Options, lib: Library, s: State, e: Ast.Event)
    ensures var r := RenderStep(opts, lib, s, e.node, e.entering).0;
      Get(r.orderedListCounter, s.listDepth)
        == Get(s.orderedListCounter, s.listDepth) + (if IsOrderedItem(e) && !HookTakes(opts, e) then 1 else 0)
  {
    if HookTakes(opts, e) {
      HookHandles(opts, lib, s, e.node, e.entering);
    } else {
      var t := if opts.renderNodeHook.Some?
        then WriteRaw(s, opts.renderNodeHook.value(e.node, e.entering).written) else s;
      assert RenderStep(opts, lib, s, e.node, e.entering).0 == Dispatch(opts, lib, t, e.node);
      DispatchCounter(opts, lib, t, e.node);
    }
  }

  /** No span-level node touches the ordered-list counters. */
  lemma {:induction false} InlineKeepsCounters(opts: Options, lib: Library, s: State, node: Ast.Node)
    requires Ast.IsInline(node)
    ensures Dispatch(opts, lib, s, node).orderedListCounter == s.orderedListCounter
  {
    if node.Text? {
      TextEffect(s, node.literal);
    }
  }

  /**
    * The counter that list items read (the one at the current depth, which a list never sets)
    * goes up by one on every visit to an ordered item the hook leaves alone, and is never reset.
    */
  lemma {:induction false} WalkCounter(opts: Options, lib: Library, s: State, events: seq<Ast.Event>)
    ensures Get(Walk(opts, lib, s, events).orderedListCounter, s.listDepth)
      == Get(s.orderedListCounter, s.listDepth) + OrderedItems(opts, events)
    decreases |events|
  {
    if events != [] {
      var t := RenderStep(opts, lib, s, events[0].node, events[0].entering).0;
      StepCounter(opts, lib, s, events[0]);
      WalkCounter(opts, lib, t, events[1..]);
    }
  }

  /**
    * The number an ordered item gets: after any walk from a fresh renderer, the next ordered
    * item is numbered with the count of ordered-item visits the hook left to the renderer, so
    * the first one of a document is numbered 0.
    */
  lemma {:induction false} ItemNumber(opts: Options, lib: Library, events: seq<Ast.Event>, text: Bytes, flags: Ast.ListFlags)
    requires flags.ordered
    ensures var s := Walk(opts, lib, Initial, events);
      ListItemStep(lib, s, flags, text).output[|s.output|..]
        == FormatInt(OrderedItems(opts, events)) + "." + lib.indent(text) + "\n"
           + (if GetFlag(s.paragraph, 0) && !flags.endOfList then "\n" else [])
  {
    var s := Walk(opts, lib, Initial, events);
    FreshDepthStaysZero(opts, lib, events);
    WalkCounter(opts, lib, Initial, events);
    ListItemEffect(lib, s, flags, text);
    var tail := ItemMarker(s, flags) + lib.indent(text) + "\n"
                + (if GetFlag(s.paragraph, 0) && !flags.endOfList then "\n" else []);
    assert ItemMarker(s, flags) == FormatInt(OrderedItems(opts, events)) + ".";
    assert ListItemStep(lib, s, flags, text).output == s.output + tail;
    assert (s.output + tail)[|s.output|..] == tail;
  }
}
