/**
  * The byte-string helpers of the renderer: white-space collapsing for text runs
  * (`cleanWithoutTrim`), backslash doubling for link destinations (`escape`), the digit test
  * (`isNumber`) and the rule deciding when a text fragment gets a leading backslash
  * (`needsEscaping`).
  */
module MarkdownText {
  import opened GoLib

  // ---------------------------------------------------------------------------
  // cleanWithoutTrim

  /** A newline, carriage return or tab: the bytes that cleaning turns into a space. */
  predicate IsBreak(c: char)
  {
    c == '\n' || c == '\r' || c == '\t'
  }

  /** What cleaning turns one byte into. */
  function Blank(c: char): char
  {
    if IsBreak(c) then ' ' else c
  }

  /** The previous byte the cleaning loop carries: the last byte kept, or the zero byte at first. */
  function LastKept(b: Bytes): char
  {
    if b == [] then 0 as char else b[|b| - 1]
  }

  predicate NoBreaks(s: Bytes)
  {
    forall i :: 0 <= i < |s| ==> !IsBreak(s[i])
  }

  predicate NoDoubleSpace(s: Bytes)
  {
    forall i :: 0 <= i < |s| - 1 ==> s[i] != ' ' || s[i + 1] != ' '
  }

  /**
    * What `cleanWithoutTrim` computes, one input byte at a time from the left: breaks become
    * spaces and a space right after a kept space is dropped. Leading and trailing spaces stay.
    */
  function Cleaned(s: Bytes): (r: Bytes)
    ensures |r| <= |s|
    ensures |r| == 0 <==> |s| == 0
    ensures NoBreaks(r)
    ensures NoDoubleSpace(r)
    decreases |s|
  {
    if s == [] then []
    else
      var b := Cleaned(s[..|s| - 1]);
      var q := Blank(s[|s| - 1]);
      if q != ' ' || LastKept(b) != ' ' then b + [q] else b
  }

  /** The loop of `cleanWithoutTrim`, with the previous kept byte carried in `p`. */
  method CleanWithoutTrim(s: Bytes) returns (b: Bytes)
    ensures b == Cleaned(s)
  {
    b := [];
    var p: char := 0 as char;
    var i := 0;
    while i < |s|
      invariant 0 <= i <= |s|
      invariant b == Cleaned(s[..i])
      invariant p == LastKept(b)
    {
      var q := s[i];
      if q == '\n' || q == '\r' || q == '\t' {
        q := ' ';
      }
      assert s[..i + 1][..i] == s[..i];
      if q != ' ' || p != ' ' {
        b := b + [q];
        p := q;
      }
      i := i + 1;
    }
    assert s[..i] == s;
  }

  /** The first byte always survives cleaning (as a space if it was a break). */
  lemma {:induction false} CleanedKeepsFirst(s: Bytes)
    requires |s| > 0
    ensures Cleaned(s)[0] == Blank(s[0])
    decreases |s|
  {
    if |s| > 1 {
      var init := s[..|s| - 1];
      CleanedKeepsFirst(init);
      assert init[0] == s[0];
    }
  }

  /** The last byte always survives cleaning too (as a space if it was a break): no blank is trimmed. */
  lemma {:induction false} CleanedKeepsLast(s: Bytes)
    requires |s| > 0
    ensures Cleaned(s)[|Cleaned(s)| - 1] == Blank(s[|s| - 1])
  {
    var b := Cleaned(s[..|s| - 1]);
    var q := Blank(s[|s| - 1]);
    if q == ' ' && LastKept(b) == ' ' {
      assert b != [] && b[|b| - 1] == ' ';
    }
  }

  /** A space or a break: the bytes that cleaning collapses. */
  predicate IsBlank(c: char)
  {
    c == ' ' || IsBreak(c)
  }

  /** The bytes of `s` that are neither a space nor a break, in order. */
  function NonBlank(s: Bytes): Bytes
    decreases |s|
  {
    if s == [] then []
    else NonBlank(s[..|s| - 1]) + (if IsBlank(s[|s| - 1]) then [] else [s[|s| - 1]])
  }

  /** Cleaning only touches blanks: every other byte survives, in order. */
  lemma {:induction false} CleanedKeepsWords(s: Bytes)
    ensures NonBlank(Cleaned(s)) == NonBlank(s)
    decreases |s|
  {
    if s != [] {
      var init := s[..|s| - 1];
      var b := Cleaned(init);
      var q := Blank(s[|s| - 1]);
      CleanedKeepsWords(init);
      if q != ' ' || LastKept(b) != ' ' {
        assert (b + [q])[..|b|] == b;
      }
    }
  }

  /**
    * A byte that is not blank separates cleaning: each side is cleaned on its own and the byte
    * stays between them. With `CleanedRun` and `Cleaned([]) == []` this fixes `Cleaned`.
    */
  lemma {:induction false} CleanedSplit(a: Bytes, c: char, b: Bytes)
    requires !IsBlank(c)
    ensures Cleaned(a + [c] + b) == Cleaned(a) + [c] + Cleaned(b)
    decreases |b|
  {
    if b == [] {
      assert a + [c] + b == a + [c];
      assert (a + [c])[..|a|] == a;
    } else {
      var b' := b[..|b| - 1];
      var d := b[|b| - 1];
      var s := a + [c] + b;
      assert s[..|s| - 1] == a + [c] + b';
      assert s[|s| - 1] == d;
      CleanedSplit(a, c, b');
      var left := Cleaned(a) + [c];
      var cb := Cleaned(b');
      assert LastKept(left + cb) != ' ' <==> LastKept(cb) != ' ' by {
        if cb == [] {
          assert left + cb == left;
        }
      }
      var q := Blank(d);
      if q != ' ' || LastKept(cb) != ' ' {
        assert Cleaned(b) == cb + [q];
        assert Cleaned(s) == left + cb + [q];
      } else {
        assert Cleaned(b) == cb;
      }
    }
  }

  /** A non-empty run of spaces and breaks cleans to exactly one space. */
  lemma {:induction false} CleanedRun(w: Bytes)
    requires |w| > 0
    requires forall i :: 0 <= i < |w| ==> IsBlank(w[i])
    ensures Cleaned(w) == " "
    decreases |w|
  {
    if |w| > 1 {
      CleanedRun(w[..|w| - 1]);
    } else {
      assert w[..0] == [];
    }
  }

  /** The two lemmas at work: a tab between two words becomes a single space. */
  lemma {:induction false} CleanedTabBetweenWords()
    ensures Cleaned("a\tb") == "a b"
  {
    var tab: Bytes := ['\t'];
    CleanedRun(tab);
    CleanedSplit([], 'a', tab);
    assert [] + ['a'] + tab == ['a', '\t'];
    CleanedSplit(['a', '\t'], 'b', []);
    assert ['a', '\t'] + ['b'] + [] == "a\tb";
    assert Cleaned([]) == [];
  }

  /** A string already free of breaks and of double spaces is left as it is. */
  lemma {:induction false} CleanedFixes(s: Bytes)
    requires NoBreaks(s) && NoDoubleSpace(s)
    ensures Cleaned(s) == s
    decreases |s|
  {
    if s != [] {
      var init := s[..|s| - 1];
      assert NoDoubleSpace(init) by {
        forall i | 0 <= i < |init| - 1 ensures init[i] != ' ' || init[i + 1] != ' ' {
          assert init[i] == s[i] && init[i + 1] == s[i + 1];
        }
      }
      CleanedFixes(init);
      assert s == init + [s[|s| - 1]];
      if |s| > 1 {
        assert LastKept(init) == s[|s| - 2];
      }
    }
  }

  /** Cleaning twice is cleaning once. */
  lemma {:induction false} CleanedIdempotent(s: Bytes)
    ensures Cleaned(Cleaned(s)) == Cleaned(s)
  {
    CleanedFixes(Cleaned(s));
  }

  // ---------------------------------------------------------------------------
  // escape

  /** Every backslash doubled, every other byte kept (`bytes.Replace` of `\` by `\\`, all occurrences). */
  function Escape(text: Bytes): (r: Bytes)
    ensures |r| == |text| + Count(text, '\\')
  {
    if text == [] then [] else (if text[0] == '\\' then "\\\\" else [text[0]]) + Escape(text[1..])
  }

  /** Undoubles backslashes: the inverse of `Escape`. */
  function Unescape(e: Bytes): Bytes
    decreases |e|
  {
    if e == [] then []
    else if |e| >= 2 && e[0] == '\\' && e[1] == '\\' then "\\" + Unescape(e[2..])
    else [e[0]] + Unescape(e[1..])
  }

  lemma {:induction false} EscapeRoundTrip(text: Bytes)
    ensures Unescape(Escape(text)) == text
  {
    if text != [] {
      EscapeRoundTrip(text[1..]);
      var e := Escape(text);
      if text[0] == '\\' {
        assert e[2..] == Escape(text[1..]);
      } else {
        assert e[1..] == Escape(text[1..]);
      }
    }
  }

  /** Escaping changes a string exactly when it holds a backslash. */
  lemma {:induction false} EscapeChanges(text: Bytes)
    ensures Escape(text) == text <==> '\\' !in text
  {
    if '\\' !in text {
      EscapeOfPlain(text);
    } else {
      CountPositive(text, '\\');
    }
  }

  lemma {:induction false} EscapeOfPlain(text: Bytes)
    requires '\\' !in text
    ensures Escape(text) == text
  {
    if text != [] {
      EscapeOfPlain(text[1..]);
    }
  }

  lemma {:induction false} CountPositive(s: Bytes, c: char)
    requires c in s
    ensures Count(s, c) > 0
  {
    if s[0] != c {
      CountPositive(s[1..], c);
    }
  }

  // ---------------------------------------------------------------------------
  // isNumber and needsEscaping

  /** Every byte of `data` is an ASCII digit; vacuously true of the empty string. */
  function IsNumber(data: Bytes): (r: bool)
    ensures r <==> forall i :: 0 <= i < |data| ==> IsDigit(data[i])
  {
    if data == [] then true else IsDigit(data[0]) && IsNumber(data[1..])
  }

  /** The bytes that, standing alone as a text fragment, always get a leading backslash. */
  predicate IsStructural(c: char)
  {
    c in "\\`*_{}[]()#+-<>"
  }

  /**
    * Whether a whole text fragment gets a leading backslash: a lone structural byte always does,
    * a lone "." does when the previous text fragment is all digits (so "1." is not read back as
    * a list marker), and nothing else does ("!" included).
    */
  function NeedsEscaping(text: Bytes, lastNormalText: Bytes): (r: bool)
    ensures r <==> (|text| == 1 && IsStructural(text[0])) || (text == "." && IsNumber(lastNormalText))
  {
    if text == "\\" || text == "`" || text == "*" || text == "_" || text == "{" || text == "}"
       || text == "[" || text == "]" || text == "(" || text == ")" || text == "#" || text == "+"
       || text == "-" then
      true
    else if text == "!" then
      false
    else if text == "." then
      IsNumber(lastNormalText)
    else if text == "<" || text == ">" then
      true
    else
      false
  }

  /** Only one-byte fragments are ever escaped, and a "." after empty text is. */
  lemma {:induction false} NeedsEscapingShape(text: Bytes, lastNormalText: Bytes)
    ensures NeedsEscaping(text, lastNormalText) ==> |text| == 1
    ensures !NeedsEscaping("!", lastNormalText)
    ensures NeedsEscaping(".", "")
  {
  }
}
