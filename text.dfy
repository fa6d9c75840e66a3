/**
  The JavaScript string operations the application relies on, written out:
  `trim`, `split` on one character, `Array.prototype.join`, the decimal
  rendering of a number (`toString`, template literals) and ASCII lower-casing.
 */
module Text {

  /** The characters `String.prototype.trim` strips: ECMAScript WhiteSpace
      (tab, vertical tab, form feed, no-break space, byte-order mark and the
      space separators) and LineTerminator (line feed, carriage return,
      line and paragraph separators). */
  predicate IsSpace(c: char) {
    c == '\t' || c == '\n' || c == '\U{B}' || c == '\U{C}' || c == '\r' || c == ' '
    || c == '\U{A0}' || c == '\U{1680}' || ('\U{2000}' <= c <= '\U{200A}')
    || c == '\U{2028}' || c == '\U{2029}' || c == '\U{202F}' || c == '\U{205F}'
    || c == '\U{3000}' || c == '\U{FEFF}'
  }

  /** `s` with its leading white space removed. */
  function TrimStart(s: string): (r: string)
    ensures |r| <= |s| && r == s[|s| - |r|..]
    ensures forall i :: 0 <= i < |s| - |r| ==> IsSpace(s[i])
    ensures r == [] || !IsSpace(r[0])
    decreases |s|
  {
    if s != [] && IsSpace(s[0]) then TrimStart(s[1..]) else s
  }

  /** `s` with its trailing white space removed. */
  function TrimEnd(s: string): (r: string)
    ensures |r| <= |s| && r == s[..|r|]
    ensures forall i :: |r| <= i < |s| ==> IsSpace(s[i])
    ensures r == [] || !IsSpace(r[|r| - 1])
    decreases |s|
  {
    if s != [] && IsSpace(s[|s| - 1]) then TrimEnd(s[..|s| - 1]) else s
  }

  /** `r` is the slice of `s` starting at `a`, and everything of `s` around
      it is white space. */
  predicate InnerSlice(s: string, r: string, a: int) {
    0 <= a && a + |r| <= |s| && r == s[a..a + |r|]
    && (forall i :: 0 <= i < a ==> IsSpace(s[i]))
    && (forall i :: a + |r| <= i < |s| ==> IsSpace(s[i]))
  }

  /** `s.trim()`: a slice of `s` with only white space cut away on either side. */
  function Trim(s: string): (r: string)
    ensures |r| <= |s|
    ensures exists a :: InnerSlice(s, r, a)
  {
    var t := TrimStart(s);
    var r := TrimEnd(t);
    PrefixOfSuffix(s, t, r);
    r
  }

  /** A prefix `r` of a suffix `t` of `s`, where `s` has only white space
      before `t` and `t` only white space after `r`, is an inner slice of `s`. */
  lemma PrefixOfSuffix(s: string, t: string, r: string)
    requires |t| <= |s| && t == s[|s| - |t|..] && forall i :: 0 <= i < |s| - |t| ==> IsSpace(s[i])
    requires |r| <= |t| && r == t[..|r|] && forall i :: |r| <= i < |t| ==> IsSpace(t[i])
    ensures |r| <= |s| && InnerSlice(s, r, |s| - |t|)
    ensures exists a :: InnerSlice(s, r, a)
  {
    var a := |s| - |t|;
    forall i | a + |r| <= i < |s| ensures IsSpace(s[i]) {
      assert s[i] == t[i - a];
    }
    assert InnerSlice(s, r, a);
  }

  /** `s.trim()` is falsy: the empty string. */
  predicate IsBlank(s: string) {
    Trim(s) == ""
  }

  /** The trimmed string neither starts nor ends with white space. */
  lemma TrimEdges(s: string)
    ensures Trim(s) == [] || (!IsSpace(Trim(s)[0]) && !IsSpace(Trim(s)[|Trim(s)| - 1]))
  {
    var t := TrimStart(s);
    var u := TrimEnd(t);
    if u != [] {
      assert u[0] == t[0];
    }
  }

  /** A string is blank exactly when every character of it is white space. */
  lemma BlankIffAllSpace(s: string)
    ensures IsBlank(s) <==> forall i :: 0 <= i < |s| ==> IsSpace(s[i])
  {
    var t := TrimStart(s);
    if IsBlank(s) {
      forall i | 0 <= i < |s| ensures IsSpace(s[i]) {
        if i >= |s| - |t| {
          assert IsSpace(t[i - (|s| - |t|)]);
        }
      }
    }
    if forall i :: 0 <= i < |s| ==> IsSpace(s[i]) {
      if t != [] {
        assert t[0] == s[|s| - |t|];
      }
    }
  }

  /** Trimming twice is trimming once. */
  lemma TrimIdempotent(s: string)
    ensures Trim(Trim(s)) == Trim(s)
  {
    var t := Trim(s);
    TrimEdges(s);
    if t != [] {
      assert TrimStart(t) == t;
      assert TrimEnd(t) == t;
    }
  }

  /** `s.split(sep)` for a one-character separator: the maximal pieces
      between separators, including empty ones; `"".split(sep)` is `[""]`. */
  function Split(s: string, sep: char): (parts: seq<string>)
    ensures |parts| >= 1
    ensures forall k :: 0 <= k < |parts| ==> sep !in parts[k]
    decreases |s|
  {
    if s == [] then [""]
    else
      var rest := Split(s[1..], sep);
      if s[0] == sep then [""] + rest else [[s[0]] + rest[0]] + rest[1..]
  }

  /** `parts.join(sep)`: empty for no parts, the part itself for one, and
      otherwise beginning with the first part and then the separator. */
  function Join(parts: seq<string>, sep: string): (r: string)
    ensures parts == [] ==> r == ""
    ensures |parts| == 1 ==> r == parts[0]
    ensures |parts| > 1 ==> |r| >= |parts[0]| + |sep| && r[..|parts[0]| + |sep|] == parts[0] + sep
    decreases |parts|
  {
    if |parts| == 0 then ""
    else if |parts| == 1 then parts[0]
    else parts[0] + sep + Join(parts[1..], sep)
  }

  /** `split` and `join` are inverse: joining the pieces with the separator
      gives back the original string. */
  lemma {:induction false} SplitJoin(s: string, sep: char)
    ensures Join(Split(s, sep), [sep]) == s
    decreases |s|
  {
    if s != [] {
      SplitJoin(s[1..], sep);
      var rest := Split(s[1..], sep);
      if s[0] == sep {
        assert Split(s, sep)[1..] == rest;
      } else {
        var parts := Split(s, sep);
        assert parts[1..] == rest[1..];
        if |rest| == 1 {
          assert Join(rest, [sep]) == rest[0];
        } else {
          assert Join(rest, [sep]) == rest[0] + [sep] + Join(rest[1..], [sep]);
        }
      }
    }
  }

  /** `split` yields one piece more than there are separators. */
  lemma {:induction false} SplitCount(s: string, sep: char)
    ensures |Split(s, sep)| == multiset(s)[sep] + 1
    decreases |s|
  {
    if s != [] {
      SplitCount(s[1..], sep);
      assert s == [s[0]] + s[1..];
      assert multiset(s) == multiset([s[0]]) + multiset(s[1..]);
    }
  }

  /** How `split` treats the first character. */
  lemma SplitCons(c: char, rest: string, sep: char)
    ensures Split([c] + rest, sep) ==
      if c == sep then [""] + Split(rest, sep)
      else [[c] + Split(rest, sep)[0]] + Split(rest, sep)[1..]
  {
    assert ([c] + rest)[1..] == rest;
  }

  /** A string without the separator is a single piece. */
  lemma {:induction false} SplitNoSeparator(s: string, sep: char)
    requires sep !in s
    ensures Split(s, sep) == [s]
    decreases |s|
  {
    if s != [] {
      SplitNoSeparator(s[1..], sep);
      assert [s[0]] + s[1..] == s;
    }
  }

  /** The last piece of `s.split(sep)`: `s.split(sep).pop()`. */
  function LastPiece(s: string, sep: char): string {
    var parts := Split(s, sep);
    parts[|parts| - 1]
  }

  /** Everything up to a separator has no bearing on the last piece. */
  lemma {:induction false} LastPieceAfterSeparator(prefix: string, tail: string, sep: char)
    ensures LastPiece(prefix + [sep] + tail, sep) == LastPiece(tail, sep)
    decreases |prefix|
  {
    if prefix == [] {
      SplitCons(sep, tail, sep);
      assert prefix + [sep] + tail == [sep] + tail;
    } else {
      var c, rest := prefix[0], prefix[1..];
      var x := rest + [sep] + tail;
      assert prefix + [sep] + tail == [c] + x;
      LastPieceAfterSeparator(rest, tail, sep);
      SeparatorMakesTwoPieces(rest, tail, sep);
      LastPieceCons(c, x, sep);
    }
  }

  /** Text with a separator in it splits into at least two pieces. */
  lemma SeparatorMakesTwoPieces(a: string, b: string, sep: char)
    ensures |Split(a + [sep] + b, sep)| >= 2
  {
    SplitCount(a + [sep] + b, sep);
    assert multiset(a + [sep] + b)[sep] >= 1;
  }

  /** A character in front of a string that already splits into two pieces
      leaves the last piece alone. */
  lemma LastPieceCons(c: char, x: string, sep: char)
    requires |Split(x, sep)| >= 2
    ensures LastPiece([c] + x, sep) == LastPiece(x, sep)
  {
    var r := Split(x, sep);
    var parts := Split([c] + x, sep);
    SplitCons(c, x, sep);
    if c == sep {
      assert parts == [""] + r;
      assert parts[|parts| - 1] == r[|r| - 1];
    } else {
      assert parts == [[c] + r[0]] + r[1..];
      assert |parts| == |r|;
      assert parts[|parts| - 1] == r[1..][|r| - 2];
    }
  }

  /** The last piece is the text after the last separator, or all of `s`
      when it has no separator. */
  lemma LastPieceIsTail(prefix: string, tail: string, sep: char)
    requires sep !in tail
    ensures LastPiece(prefix + [sep] + tail, sep) == tail
    ensures LastPiece(tail, sep) == tail
  {
    LastPieceAfterSeparator(prefix, tail, sep);
    SplitNoSeparator(tail, sep);
  }

  /** The digit character for `d`. */
  function Digit(d: nat): (c: char)
    requires d < 10
    ensures '0' <= c <= '9'
  {
    ('0' as int + d) as char
  }

  /** `n.toString()` for a non-negative integer: its decimal digits, no leading zeros. */
  function Decimal(n: nat): (r: string)
    ensures |r| >= 1
    ensures forall i :: 0 <= i < |r| ==> '0' <= r[i] <= '9'
    ensures |r| > 1 ==> r[0] != '0'
    decreases n
  {
    if n < 10 then [Digit(n)] else Decimal(n / 10) + [Digit(n % 10)]
  }

  /** The number a string of decimal digits denotes. */
  function DigitsValue(s: string): nat
    requires forall i :: 0 <= i < |s| ==> '0' <= s[i] <= '9'
    decreases |s|
  {
    if s == [] then 0 else DigitsValue(s[..|s| - 1]) * 10 + (s[|s| - 1] as int - '0' as int)
  }

  /** Reading back the decimal rendering gives the number. */
  lemma {:induction false} DecimalRoundTrip(n: nat)
    ensures DigitsValue(Decimal(n)) == n
    decreases n
  {
    if n >= 10 {
      DecimalRoundTrip(n / 10);
      var r := Decimal(n);
      assert r[..|r| - 1] == Decimal(n / 10);
    }
  }

  /** Different numbers have different decimal renderings. */
  lemma DecimalInjective(a: nat, b: nat)
    ensures Decimal(a) == Decimal(b) ==> a == b
  {
    DecimalRoundTrip(a);
    DecimalRoundTrip(b);
  }

  /** One character lower-cased, ASCII letters only. */
  function LowerChar(c: char): (r: char)
    ensures !('A' <= r <= 'Z')
    ensures 'A' <= c <= 'Z' ==> r as int == c as int + 32
    ensures !('A' <= c <= 'Z') ==> r == c
  {
    if 'A' <= c <= 'Z' then (c as int + 32) as char else c
  }

  /** `s.toLowerCase()` on ASCII letters. */
  function ToLower(s: string): (r: string)
    ensures |r| == |s|
    ensures forall i :: 0 <= i < |s| ==> r[i] == LowerChar(s[i])
  {
    seq(|s|, i requires 0 <= i < |s| => LowerChar(s[i]))
  }
}
