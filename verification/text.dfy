/**
 * The string operations of JavaScript that the components use, on
 * `seq<char>`: trim, toLowerCase, startsWith/endsWith/includes, split/join
 * and the decimal text of a number inside a template literal.
 */
module Text {

  /** The characters String.prototype.trim removes: ECMAScript's WhiteSpace and LineTerminator code points. */
  predicate IsWhitespace(c: char) {
    || c == ' ' || c == '\t' || c == '\n' || c == '\r' || c == '\U{B}' || c == '\U{C}'
    || c == '\U{A0}' || c == '\U{FEFF}' || c == '\U{1680}' || ('\U{2000}' <= c <= '\U{200A}')
    || c == '\U{2028}' || c == '\U{2029}' || c == '\U{202F}' || c == '\U{205F}' || c == '\U{3000}'
  }

  predicate IsBlank(s: string) {
    forall i :: 0 <= i < |s| ==> IsWhitespace(s[i])
  }

  function TrimStart(s: string): string
    decreases |s|
  {
    if |s| > 0 && IsWhitespace(s[0]) then TrimStart(s[1..]) else s
  }

  function TrimEnd(s: string): string
    decreases |s|
  {
    if |s| > 0 && IsWhitespace(s[|s| - 1]) then TrimEnd(s[..|s| - 1]) else s
  }

  /** String.prototype.trim. */
  function Trim(s: string): string {
    TrimEnd(TrimStart(s))
  }

  lemma {:induction false} TrimStartBlank(s: string)
    ensures TrimStart(s) == "" <==> IsBlank(s)
    decreases |s|
  {
    if |s| > 0 && IsWhitespace(s[0]) {
      TrimStartBlank(s[1..]);
      assert IsBlank(s) <==> IsBlank(s[1..]) by {
        if IsBlank(s[1..]) {
          forall i | 0 <= i < |s| ensures IsWhitespace(s[i]) {
            if i > 0 { assert s[i] == s[1..][i - 1]; }
          }
        }
      }
    }
  }

  lemma {:induction false} TrimEndEmpty(s: string)
    ensures TrimEnd(s) == "" <==> IsBlank(s)
    decreases |s|
  {
    if |s| > 0 && IsWhitespace(s[|s| - 1]) {
      var p := s[..|s| - 1];
      TrimEndEmpty(p);
      assert IsBlank(s) <==> IsBlank(p) by {
        if IsBlank(p) {
          forall i | 0 <= i < |s| ensures IsWhitespace(s[i]) {
            if i < |s| - 1 { assert s[i] == p[i]; }
          }
        }
      }
    }
  }

  lemma {:induction false} TrimStartHead(s: string)
    ensures TrimStart(s) == "" || !IsWhitespace(TrimStart(s)[0])
    decreases |s|
  {
    if |s| > 0 && IsWhitespace(s[0]) {
      TrimStartHead(s[1..]);
    }
  }

  /** A string is blank (only white space) exactly when trim() leaves nothing of it. */
  lemma TrimEmptyIffBlank(s: string)
    ensures Trim(s) == "" <==> IsBlank(s)
  {
    TrimStartBlank(s);
    TrimEndEmpty(TrimStart(s));
    TrimStartHead(s);
  }

  lemma BlankExtend(s: string, c: char)
    requires !IsBlank(s)
    ensures !IsBlank(s + [c])
  {
    var i :| 0 <= i < |s| && !IsWhitespace(s[i]);
    assert (s + [c])[i] == s[i];
  }

  /** toLowerCase on the ASCII letters; every other character is kept. */
  function LowerChar(c: char): char {
    if 'A' <= c <= 'Z' then (c as int + 32) as char else c
  }

  function ToLower(s: string): (r: string)
    ensures |r| == |s|
    ensures forall i :: 0 <= i < |s| ==> r[i] == LowerChar(s[i])
  {
    seq(|s|, i requires 0 <= i < |s| => LowerChar(s[i]))
  }

  predicate StartsWith(s: string, prefix: string) {
    |prefix| <= |s| && s[..|prefix|] == prefix
  }

  predicate EndsWith(s: string, suffix: string) {
    |suffix| <= |s| && s[|s| - |suffix|..] == suffix
  }

  /** String.prototype.includes: `sub` occurs somewhere in `s` (the empty string occurs everywhere). */
  predicate Contains(s: string, sub: string)
    decreases |s|
  {
    StartsWith(s, sub) || (|s| > 0 && Contains(s[1..], sub))
  }

  lemma {:induction false} ContainsAppend(s: string, t: string, sub: string)
    requires Contains(s, sub)
    ensures Contains(s + t, sub)
    decreases |s|
  {
    if StartsWith(s, sub) {
      assert (s + t)[..|sub|] == s[..|sub|];
    } else {
      ContainsAppend(s[1..], t, sub);
      assert (s + t)[1..] == s[1..] + t;
    }
  }

  /** A one-character text occurs in `s` exactly when that character does. */
  lemma {:induction false} ContainsCharIff(s: string, c: char)
    ensures Contains(s, [c]) <==> c in s
    decreases |s|
  {
    if |s| > 0 {
      ContainsCharIff(s[1..], c);
      assert StartsWith(s, [c]) <==> s[0] == c;
      assert c in s <==> s[0] == c || c in s[1..];
    }
  }

  /**
   * String.prototype.split with a non-empty separator: the pieces between
   * the occurrences of `sep`, found left to right without overlap.
   */
  function Split(s: string, sep: string): (parts: seq<string>)
    requires |sep| > 0
    ensures |parts| > 0
    decreases |s|
  {
    if |s| < |sep| then [s]
    else if s[..|sep|] == sep then [""] + Split(s[|sep|..], sep)
    else
      var rest := Split(s[1..], sep);
      [[s[0]] + rest[0]] + rest[1..]
  }

  /** Array.prototype.join. */
  function Join(parts: seq<string>, sep: string): string
    decreases |parts|
  {
    if |parts| == 0 then ""
    else if |parts| == 1 then parts[0]
    else parts[0] + sep + Join(parts[1..], sep)
  }

  function Last<T>(xs: seq<T>): T
    requires |xs| > 0
  {
    xs[|xs| - 1]
  }

  /** `parts.filter(part => part.length > 0)`. */
  function NonEmpty(parts: seq<string>): (r: seq<string>)
    ensures forall i :: 0 <= i < |r| ==> r[i] != "" && r[i] in parts
    ensures |r| <= |parts|
  {
    if |parts| == 0 then []
    else if parts[0] == "" then NonEmpty(parts[1..])
    else [parts[0]] + NonEmpty(parts[1..])
  }

  /** Splitting and joining with the same separator gives back the string. */
  lemma {:induction false} JoinSplit(s: string, sep: string)
    requires |sep| > 0
    ensures Join(Split(s, sep), sep) == s
    decreases |s|
  {
    if |s| < |sep| {
    } else if s[..|sep|] == sep {
      JoinSplit(s[|sep|..], sep);
      var rest := Split(s[|sep|..], sep);
      assert Split(s, sep) == [""] + rest;
      assert ([""] + rest)[1..] == rest;
      assert s == s[..|sep|] + s[|sep|..];
    } else {
      JoinSplit(s[1..], sep);
      var rest := Split(s[1..], sep);
      var parts := [[s[0]] + rest[0]] + rest[1..];
      if |rest| == 1 {
        assert parts == [[s[0]] + rest[0]];
      } else {
        assert parts[1..] == rest[1..];
        assert Join(rest, sep) == rest[0] + sep + Join(rest[1..], sep);
      }
      assert s == [s[0]] + s[1..];
    }
  }

  /** With a one-character separator, no piece contains the separator. */
  lemma {:induction false} SplitPartsAvoidSep(s: string, c: char)
    ensures forall i :: 0 <= i < |Split(s, [c])| ==> c !in Split(s, [c])[i]
    decreases |s|
  {
    if |s| < 1 {
    } else if s[..1] == [c] {
      SplitPartsAvoidSep(s[1..], c);
    } else {
      SplitPartsAvoidSep(s[1..], c);
      var rest := Split(s[1..], [c]);
      assert s[0] != c by { assert s[..1][0] == s[0]; }
      assert c !in [s[0]] + rest[0];
    }
  }

  /** Splitting at a one-character separator, one leading character at a time. */
  lemma SplitCons(x: char, t: string, c: char)
    ensures x == c ==> Split([x] + t, [c]) == [""] + Split(t, [c])
    ensures x != c ==> Split([x] + t, [c]) == [[x] + Split(t, [c])[0]] + Split(t, [c])[1..]
  {
    var s := [x] + t;
    assert s[1..] == t;
    assert s[..1] == [x];
  }

  /** With a one-character separator, splitting at a separator splits each side separately. */
  lemma {:induction false} SplitConcat(a: string, c: char, b: string)
    ensures Split(a + [c] + b, [c]) == Split(a, [c]) + Split(b, [c])
    decreases |a|
  {
    var rb := Split(b, [c]);
    if |a| == 0 {
      assert a + [c] + b == [c] + b;
      SplitCons(c, b, c);
    } else {
      var t := a[1..] + [c] + b;
      assert a + [c] + b == [a[0]] + t;
      assert a == [a[0]] + a[1..];
      var ra := Split(a[1..], [c]);
      SplitConcat(a[1..], c, b);
      assert Split(t, [c]) == ra + rb;
      SplitCons(a[0], t, c);
      SplitCons(a[0], a[1..], c);
      if a[0] == c {
        assert [""] + (ra + rb) == ([""] + ra) + rb;
      } else {
        assert (ra + rb)[0] == ra[0];
        assert (ra + rb)[1..] == ra[1..] + rb;
        assert [[a[0]] + ra[0]] + (ra[1..] + rb) == ([[a[0]] + ra[0]] + ra[1..]) + rb;
      }
    }
  }

  /** A string without the separator splits into itself alone. */
  lemma {:induction false} SplitNoSep(s: string, c: char)
    requires c !in s
    ensures Split(s, [c]) == [s]
    decreases |s|
  {
    if |s| >= 1 {
      assert s[..1] != [c] by { assert s[..1][0] == s[0]; }
      assert c !in s[1..];
      SplitNoSep(s[1..], c);
      assert [s[0]] + s[1..] == s;
    }
  }

  /** Joining pieces free of a one-character separator and splitting again gives the pieces back. */
  lemma {:induction false} SplitJoin(parts: seq<string>, c: char)
    requires |parts| > 0
    requires forall i :: 0 <= i < |parts| ==> c !in parts[i]
    ensures Split(Join(parts, [c]), [c]) == parts
    decreases |parts|
  {
    if |parts| == 1 {
      SplitNoSep(parts[0], c);
    } else {
      SplitJoin(parts[1..], c);
      SplitNoSep(parts[0], c);
      SplitConcat(parts[0], c, Join(parts[1..], [c]));
      assert parts[0] + [c] + Join(parts[1..], [c]) == Join(parts, [c]);
      assert [parts[0]] + parts[1..] == parts;
    }
  }

  /** The last piece of a one-character split is the text after the last separator. */
  lemma {:induction false} SplitLast(s: string, c: char)
    ensures c !in Last(Split(s, [c]))
    ensures EndsWith(s, Last(Split(s, [c])))
    ensures |Last(Split(s, [c]))| < |s| ==> s[|s| - |Last(Split(s, [c]))| - 1] == c
    decreases |s|
  {
    SplitPartsAvoidSep(s, c);
    if |s| >= 1 {
      var t := s[1..];
      assert s == [s[0]] + t;
      SplitCons(s[0], t, c);
      SplitLast(t, c);
      var rest := Split(t, [c]);
      var l := Last(Split(s, [c]));
      if s[0] != c && |rest| == 1 {
        assert l == [s[0]] + rest[0];
        JoinSplit(t, [c]);
        assert l == s;
      } else {
        assert l == Last(rest);
        assert s[|s| - |l|..] == t[|t| - |l|..];
        if |l| < |t| {
          assert s[|s| - |l| - 1] == t[|t| - |l| - 1];
        } else if s[0] != c {
          assert l == t;
          SplitNoSep(t, c);
          assert false;
        }
      }
    }
  }

  /** The text after the last separator is the last piece. */
  lemma SplitLastOf(x: string, c: char, e: string)
    requires c !in e
    ensures Last(Split(x + [c] + e, [c])) == e
  {
    SplitConcat(x, c, e);
    SplitNoSep(e, c);
  }

  lemma {:induction false} TrimEndIsPrefix(s: string)
    ensures |TrimEnd(s)| <= |s| && TrimEnd(s) == s[..|TrimEnd(s)|]
    decreases |s|
  {
    if |s| > 0 && IsWhitespace(s[|s| - 1]) {
      TrimEndIsPrefix(s[..|s| - 1]);
    }
  }

  /** trim() is idempotent as far as emptiness goes: a non-empty trimmed text is not blank. */
  lemma TrimmedNotBlank(s: string)
    requires Trim(s) != ""
    ensures !IsBlank(Trim(s))
  {
    TrimStartHead(s);
    TrimEndIsPrefix(TrimStart(s));
    TrimEndEmpty(TrimStart(s));
    assert Trim(s)[0] == TrimStart(s)[0];
  }

  /** A text with no white space at either end is its own trim. */
  lemma TrimNoEdges(s: string)
    requires s != "" ==> !IsWhitespace(s[0]) && !IsWhitespace(s[|s| - 1])
    ensures Trim(s) == s
  {
  }

  /** NonEmpty distributes over concatenation. */
  lemma {:induction false} NonEmptyConcat(a: seq<string>, b: seq<string>)
    ensures NonEmpty(a + b) == NonEmpty(a) + NonEmpty(b)
    decreases |a|
  {
    if |a| > 0 {
      assert (a + b)[1..] == a[1..] + b;
      NonEmptyConcat(a[1..], b);
    } else {
      assert a + b == b;
    }
  }

  /** Pieces that are all non-empty survive the filter unchanged. */
  lemma {:induction false} NonEmptyKeepsNonEmpty(parts: seq<string>)
    requires forall i :: 0 <= i < |parts| ==> parts[i] != ""
    ensures NonEmpty(parts) == parts
    decreases |parts|
  {
    if |parts| > 0 {
      NonEmptyKeepsNonEmpty(parts[1..]);
      assert [parts[0]] + parts[1..] == parts;
    }
  }

  /** The pieces of a one-character split that survive the filter never contain the separator. */
  lemma NonEmptySplitAvoidsSep(s: string, c: char)
    ensures forall i :: 0 <= i < |NonEmpty(Split(s, [c]))| ==> c !in NonEmpty(Split(s, [c]))[i]
  {
    SplitPartsAvoidSep(s, c);
    var parts := Split(s, [c]);
    forall i | 0 <= i < |NonEmpty(parts)| ensures c !in NonEmpty(parts)[i] {
      var j :| 0 <= j < |parts| && parts[j] == NonEmpty(parts)[i];
    }
  }

  function DigitChar(d: nat): char
    requires d < 10
  {
    "0123456789"[d]
  }

  /** The decimal text of a natural number, as `${n}` prints it. */
  function NatToString(n: nat): (r: string)
    ensures |r| > 0
    ensures forall i :: 0 <= i < |r| ==> '0' <= r[i] <= '9'
    decreases n
  {
    if n < 10 then [DigitChar(n)] else NatToString(n / 10) + [DigitChar(n % 10)]
  }

  /** The decimal text of an integer, with a leading '-' when it is negative. */
  function IntToString(i: int): string {
    if i < 0 then "-" + NatToString(-i) else NatToString(i)
  }
}
