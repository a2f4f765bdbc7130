/**
  * The pieces of Go's standard library that the renderer relies on, stated over byte strings:
  * `bytes.Split` on a newline, `strings.Fields`, `strings.Repeat` and the `%d` verb of `fmt`.
  * Each is defined here once and characterised by its contract or by a lemma.
  */
module GoLib {

  /** A Go byte string; every `char` stands for one byte. */
  type Bytes = seq<char>

  /** Number of occurrences of `c` in `s`. */
  function Count(s: Bytes, c: char): (n: nat)
    ensures n <= |s|
  {
    if s == [] then 0 else (if s[0] == c then 1 else 0) + Count(s[1..], c)
  }

  lemma {:induction false} CountAppend(a: Bytes, b: Bytes, c: char)
    ensures Count(a + b, c) == Count(a, c) + Count(b, c)
  {
    if a == [] {
      assert a + b == b;
    } else {
      assert (a + b)[1..] == a[1..] + b;
      CountAppend(a[1..], b, c);
    }
  }

  // ---------------------------------------------------------------------------
  // bytes.Split(s, "\n")

  /** The pieces of `s` between newlines; there is always one more piece than newlines. */
  function Split(s: Bytes): (pieces: seq<Bytes>)
    ensures |pieces| >= 1
  {
    if s == [] then [[]]
    else
      var rest := Split(s[1..]);
      if s[0] == '\n' then [[]] + rest
      else [[s[0]] + rest[0]] + rest[1..]
  }

  /** Joins pieces with a newline between each two: the inverse of `Split`. */
  function JoinLines(pieces: seq<Bytes>): Bytes
    requires |pieces| >= 1
  {
    if |pieces| == 1 then pieces[0] else pieces[0] + "\n" + JoinLines(pieces[1..])
  }

  lemma {:induction false} SplitPieces(s: Bytes)
    ensures |Split(s)| == Count(s, '\n') + 1
    ensures forall k :: 0 <= k < |Split(s)| ==> '\n' !in Split(s)[k]
  {
    if s != [] {
      SplitPieces(s[1..]);
      var rest := Split(s[1..]);
      if s[0] != '\n' {
        assert '\n' !in rest[0];
        assert '\n' !in [s[0]] + rest[0];
      }
    }
  }

  lemma {:induction false} SplitJoin(s: Bytes)
    ensures JoinLines(Split(s)) == s
  {
    if s != [] {
      SplitJoin(s[1..]);
      var rest := Split(s[1..]);
      if s[0] == '\n' {
        assert Split(s)[1..] == rest;
        assert JoinLines(Split(s)) == [] + "\n" + JoinLines(rest);
        assert s == [s[0]] + s[1..];
      } else {
        JoinFirst(rest, [s[0]]);
        assert Split(s) == [[s[0]] + rest[0]] + rest[1..];
        assert s == [s[0]] + s[1..];
      }
    }
  }

  /** Prepending to the first piece prepends to the joined string. */
  lemma {:induction false} JoinFirst(pieces: seq<Bytes>, pre: Bytes)
    requires |pieces| >= 1
    ensures JoinLines([pre + pieces[0]] + pieces[1..]) == pre + JoinLines(pieces)
  {
    var p := [pre + pieces[0]] + pieces[1..];
    assert |p| == |pieces|;
    if |pieces| == 1 {
      assert JoinLines(p) == p[0];
    } else {
      var tail := JoinLines(pieces[1..]);
      assert p[1..] == pieces[1..];
      assert JoinLines(p) == p[0] + "\n" + tail;
      assert JoinLines(pieces) == pieces[0] + "\n" + tail;
    }
  }

  /** Each piece followed by its newline, concatenated. */
  function Terminated(lines: seq<Bytes>): Bytes
  {
    if lines == [] then [] else lines[0] + "\n" + Terminated(lines[1..])
  }

  /** Joining is terminating every piece but the last and then appending the last. */
  lemma {:induction false} JoinIsTerminatedPlusLast(pieces: seq<Bytes>)
    requires |pieces| >= 1
    ensures JoinLines(pieces) == Terminated(pieces[..|pieces| - 1]) + pieces[|pieces| - 1]
  {
    if |pieces| > 1 {
      JoinIsTerminatedPlusLast(pieces[1..]);
      assert pieces[1..][..|pieces| - 2] == pieces[..|pieces| - 1][1..];
      assert pieces[1..][|pieces| - 2] == pieces[|pieces| - 1];
    }
  }

  // ---------------------------------------------------------------------------
  // strings.Fields

  /** The ASCII white space that `strings.Fields` splits on. */
  predicate IsSpace(c: char)
  {
    c == ' ' || c == '\t' || c == '\n' || c == '\r' || c == 11 as char || c == 12 as char
  }

  predicate NoSpace(s: Bytes)
  {
    forall i :: 0 <= i < |s| ==> !IsSpace(s[i])
  }

  /** `s` with every white-space byte removed. */
  function DropSpace(s: Bytes): Bytes
  {
    if s == [] then [] else (if IsSpace(s[0]) then [] else [s[0]]) + DropSpace(s[1..])
  }

  /** Length of the longest prefix of `s` free of white space. */
  function WordLen(s: Bytes): (n: nat)
    ensures n <= |s|
    ensures NoSpace(s[..n])
    ensures n < |s| ==> IsSpace(s[n])
  {
    if s == [] || IsSpace(s[0]) then 0 else 1 + WordLen(s[1..])
  }

  /** The maximal non-empty runs of non-white-space bytes of `s`, in order. */
  function Fields(s: Bytes): (fs: seq<Bytes>)
    ensures forall k :: 0 <= k < |fs| ==> |fs[k]| > 0 && NoSpace(fs[k])
    decreases |s|
  {
    if s == [] then []
    else if IsSpace(s[0]) then Fields(s[1..])
    else
      var n := WordLen(s);
      [s[..n]] + Fields(s[n..])
  }

  function Concat(fs: seq<Bytes>): Bytes
  {
    if fs == [] then [] else fs[0] + Concat(fs[1..])
  }

  lemma {:induction false} DropSpaceAppend(a: Bytes, b: Bytes)
    ensures DropSpace(a + b) == DropSpace(a) + DropSpace(b)
  {
    if a == [] {
      assert a + b == b;
    } else {
      assert (a + b)[1..] == a[1..] + b;
      DropSpaceAppend(a[1..], b);
    }
  }

  lemma {:induction false} DropSpaceOfNoSpace(s: Bytes)
    requires NoSpace(s)
    ensures DropSpace(s) == s
  {
    if s != [] {
      DropSpaceOfNoSpace(s[1..]);
    }
  }

  /** Fields lose nothing but white space: together they spell `s` without its white space. */
  lemma {:induction false} FieldsSpell(s: Bytes)
    ensures Concat(Fields(s)) == DropSpace(s)
    decreases |s|
  {
    if s != [] {
      if IsSpace(s[0]) {
        FieldsSpell(s[1..]);
      } else {
        var n := WordLen(s);
        FieldsSpell(s[n..]);
        assert s == s[..n] + s[n..];
        DropSpaceAppend(s[..n], s[n..]);
        DropSpaceOfNoSpace(s[..n]);
        assert Fields(s) == [s[..n]] + Fields(s[n..]);
        assert Fields(s)[1..] == Fields(s[n..]);
      }
    }
  }

  /** A white-space-free word is the prefix that `WordLen` measures. */
  lemma {:induction false} WordLenOfNoSpace(w: Bytes)
    requires NoSpace(w)
    ensures WordLen(w) == |w|
  {
    if w != [] {
      WordLenOfNoSpace(w[1..]);
    }
  }

  /** Appending after a word that already ends, or after one followed by white space, keeps its length. */
  lemma {:induction false} WordLenAppend(a: Bytes, t: Bytes)
    requires WordLen(a) < |a| || (|t| > 0 && IsSpace(t[0]))
    ensures WordLen(a + t) == WordLen(a)
  {
    if a == [] {
      assert a + t == t;
    } else if !IsSpace(a[0]) {
      assert (a + t)[1..] == a[1..] + t;
      WordLenAppend(a[1..], t);
    }
  }

  /** A non-empty white-space-free string is one field. */
  lemma {:induction false} FieldsOfWord(w: Bytes)
    requires |w| > 0 && NoSpace(w)
    ensures Fields(w) == [w]
  {
    WordLenOfNoSpace(w);
    assert w[..|w|] == w;
    assert w[|w|..] == [];
  }

  /**
    * A white-space byte separates fields: the fields of `a`, a space and `b` are those of `a`
    * followed by those of `b`. With `FieldsOfWord` and `Fields([]) == []` this fixes `Fields`.
    */
  lemma {:induction false} FieldsSplit(a: Bytes, c: char, b: Bytes)
    requires IsSpace(c)
    ensures Fields(a + [c] + b) == Fields(a) + Fields(b)
    decreases |a|
  {
    var s := a + [c] + b;
    if a == [] {
      assert s == [c] + b;
      assert s[1..] == b;
    } else if IsSpace(a[0]) {
      assert s[1..] == a[1..] + [c] + b;
      FieldsSplit(a[1..], c, b);
    } else {
      var n := WordLen(a);
      WordLenAppend(a, [c] + b);
      assert s == a + ([c] + b);
      assert s[..n] == a[..n];
      assert s[n..] == a[n..] + [c] + b;
      FieldsSplit(a[n..], c, b);
      assert Fields(s) == [a[..n]] + Fields(s[n..]);
      assert Fields(a) == [a[..n]] + Fields(a[n..]);
    }
  }

  /** The two lemmas at work: "g o" has the two fields "g" and "o", not one field "go". */
  lemma {:induction false} FieldsTwoWords()
    ensures Fields("g o") == ["g", "o"]
  {
    FieldsSplit("g", ' ', "o");
    assert "g" + [' '] + "o" == "g o";
    FieldsOfWord("g");
    FieldsOfWord("o");
  }

  // ---------------------------------------------------------------------------
  // strings.Repeat

  function Repeat(c: char, n: nat): (r: Bytes)
    ensures |r| == n
    ensures forall i :: 0 <= i < n ==> r[i] == c
  {
    if n == 0 then [] else [c] + Repeat(c, n - 1)
  }

  // ---------------------------------------------------------------------------
  // fmt "%d"

  function DigitChar(d: nat): (c: char)
    requires d < 10
  {
    ('0' as int + d) as char
  }

  predicate IsDigit(c: char)
  {
    '0' <= c <= '9'
  }

  /** The decimal digits of `n`, most significant first, without leading zeros. */
  function Digits(n: nat): (r: Bytes)
    ensures |r| >= 1
    ensures forall i :: 0 <= i < |r| ==> IsDigit(r[i])
    ensures |r| > 1 || n > 0 ==> r[0] != '0'
    ensures n == 0 ==> r == "0"
  {
    if n < 10 then [DigitChar(n)] else Digits(n / 10) + [DigitChar(n % 10)]
  }

  /** How `%d` prints an integer. */
  function FormatInt(n: int): Bytes
  {
    if n < 0 then "-" + Digits(-n) else Digits(n)
  }

  /** The value of a string of decimal digits. */
  function ParseDigits(s: Bytes): nat
    requires forall i :: 0 <= i < |s| ==> IsDigit(s[i])
  {
    if s == [] then 0
    else
      assert IsDigit(s[|s| - 1]);
      10 * ParseDigits(s[..|s| - 1]) + (s[|s| - 1] as int - '0' as int)
  }

  /** Reading back what `%d` printed gives the number. */
  function ParseInt(s: Bytes): int
    requires |s| >= 1
    requires s[0] == '-' ==> forall i :: 1 <= i < |s| ==> IsDigit(s[i])
    requires s[0] != '-' ==> forall i :: 0 <= i < |s| ==> IsDigit(s[i])
  {
    if s[0] == '-' then -(ParseDigits(s[1..]) as int) else ParseDigits(s)
  }

  lemma {:induction false} DigitsRoundTrip(n: nat)
    ensures ParseDigits(Digits(n)) == n
  {
    if n >= 10 {
      DigitsRoundTrip(n / 10);
      var r := Digits(n);
      assert r[..|r| - 1] == Digits(n / 10);
    }
  }

  lemma {:induction false} FormatIntRoundTrip(n: int)
    ensures |FormatInt(n)| >= 1
    ensures FormatInt(n)[0] == '-' <==> n < 0
    ensures ParseInt(FormatInt(n)) == n
  {
    if n < 0 {
      DigitsRoundTrip(-n);
      assert FormatInt(n)[1..] == Digits(-n);
    } else {
      DigitsRoundTrip(n);
    }
  }
}
