/**
 The JavaScript built-ins the startup logic relies on, as functions over `seq<char>`:
 `s.split(/\s+/).filter(Boolean)`, `Number.parseInt(s, 10)` and `Array.prototype.indexOf`.
 */
module JsBuiltins {
  import opened Wrappers

  /**
   The characters matched by `\s` in a JavaScript regular expression. The same set
   (WhiteSpace and LineTerminator of ECMAScript) is what `Number.parseInt` skips
   before the number.
   */
  predicate IsWhitespace(c: char) {
    || c == '\t' || c == '\n' || c == '\U{000B}' || c == '\U{000C}' || c == '\r' || c == ' '
    || c == '\U{00A0}' || c == '\U{1680}' || ('\U{2000}' <= c <= '\U{200A}')
    || c == '\U{2028}' || c == '\U{2029}' || c == '\U{202F}' || c == '\U{205F}'
    || c == '\U{3000}' || c == '\U{FEFF}'
  }

  predicate WhitespaceFree(s: string) {
    forall i :: 0 <= i < |s| ==> !IsWhitespace(s[i])
  }

  predicate AllWhitespace(s: string) {
    forall i :: 0 <= i < |s| ==> IsWhitespace(s[i])
  }

  /** Length of the longest prefix of `s` that holds no whitespace. */
  function WordLength(s: string): (n: nat)
    ensures n <= |s|
    ensures WhitespaceFree(s[..n])
    ensures n < |s| ==> IsWhitespace(s[n])
  {
    if s == [] || IsWhitespace(s[0]) then 0 else 1 + WordLength(s[1..])
  }

  /** Length of the longest prefix of `s` that is all whitespace. */
  function RunLength(s: string): (n: nat)
    ensures n <= |s|
    ensures AllWhitespace(s[..n])
    ensures n < |s| ==> !IsWhitespace(s[n])
  {
    if s == [] || !IsWhitespace(s[0]) then 0 else 1 + RunLength(s[1..])
  }

  /**
   `s.split(/\s+/)`: the pieces of `s` between maximal whitespace runs. A leading
   (trailing) run yields an empty first (last) piece, and `""` splits into `[""]`.
   */
  function SplitOnWhitespace(s: string): (pieces: seq<string>)
    ensures |pieces| >= 1
    ensures forall i :: 0 <= i < |pieces| ==> WhitespaceFree(pieces[i])
    ensures pieces[0] <= s
    ensures WhitespaceFree(s) ==> pieces == [s]
    ensures |s| > 0 && IsWhitespace(s[0]) ==> pieces[0] == []
    ensures |s| > 0 && IsWhitespace(s[|s| - 1]) ==> pieces[|pieces| - 1] == []
    decreases |s|
  {
    var w := WordLength(s);
    if w == |s| then [s]
    else
      var rest := s[w..];
      [s[..w]] + SplitOnWhitespace(rest[RunLength(rest)..])
  }

  /** `pieces.filter(Boolean)`: the empty string is the only falsy string. */
  function DropEmpty(pieces: seq<string>): (kept: seq<string>)
    ensures forall t :: t in kept ==> t in pieces && t != []
    ensures forall t :: t in pieces && t != [] ==> t in kept
    ensures |kept| <= |pieces|
    ensures (forall i :: 0 <= i < |pieces| ==> pieces[i] != []) ==> kept == pieces
  {
    if pieces == [] then []
    else if pieces[0] == [] then DropEmpty(pieces[1..])
    else [pieces[0]] + DropEmpty(pieces[1..])
  }

  /** `s.split(/\s+/).filter(Boolean)`. */
  function Tokens(s: string): (tokens: seq<string>)
    ensures forall t :: t in tokens ==> t != [] && WhitespaceFree(t)
    ensures Concat(tokens) == RemoveWhitespace(s)
  {
    SplitKeepsContent(s);
    DropEmptyKeepsContent(SplitOnWhitespace(s));
    DropEmpty(SplitOnWhitespace(s))
  }

  /** The characters of `s` that are not whitespace, in order. */
  function RemoveWhitespace(s: string): string {
    if s == [] then []
    else if IsWhitespace(s[0]) then RemoveWhitespace(s[1..])
    else [s[0]] + RemoveWhitespace(s[1..])
  }

  /** All strings of `parts` concatenated. */
  function Concat(parts: seq<string>): string {
    if parts == [] then [] else parts[0] + Concat(parts[1..])
  }

  /**
   `seps[0] + parts[0] + seps[1] + ... + parts[n - 1] + seps[n]`: the parts with a
   separator before, between and after them.
   */
  function Interleave(seps: seq<string>, parts: seq<string>): (s: string)
    requires |seps| == |parts| + 1
    ensures |s| >= |seps[0]|
    ensures parts != [] ==> |s| >= |seps[0]| + |parts[0]|
    ensures forall i :: 0 <= i < |seps[0]| ==> s[i] == seps[0][i]
    decreases |parts|
  {
    if parts == [] then seps[0] else seps[0] + parts[0] + Interleave(seps[1..], parts[1..])
  }

  /**
   `seps` can separate `n` tokens: `n + 1` whitespace runs, those at the two ends
   possibly empty, every one between two tokens non-empty.
   */
  predicate Separators(seps: seq<string>, n: nat) {
    && |seps| == n + 1
    && (forall i :: 0 <= i < |seps| ==> AllWhitespace(seps[i]))
    && (forall i :: 0 < i < n ==> seps[i] != [])
  }

  lemma {:induction false} RemoveWhitespaceAppend(a: string, b: string)
    ensures RemoveWhitespace(a + b) == RemoveWhitespace(a) + RemoveWhitespace(b)
    decreases |a|
  {
    if a != [] {
      assert (a + b)[0] == a[0];
      assert (a + b)[1..] == a[1..] + b;
      RemoveWhitespaceAppend(a[1..], b);
    } else {
      assert a + b == b;
    }
  }

  lemma {:induction false} RemoveWhitespaceOfWord(s: string)
    requires WhitespaceFree(s)
    ensures RemoveWhitespace(s) == s
    decreases |s|
  {
    if s != [] {
      RemoveWhitespaceOfWord(s[1..]);
    }
  }

  lemma {:induction false} RemoveWhitespaceOfRun(s: string)
    requires AllWhitespace(s)
    ensures RemoveWhitespace(s) == []
    decreases |s|
  {
    if s != [] {
      RemoveWhitespaceOfRun(s[1..]);
    }
  }

  lemma {:induction false} ConcatAppend(a: seq<string>, b: seq<string>)
    ensures Concat(a + b) == Concat(a) + Concat(b)
    decreases |a|
  {
    if a != [] {
      assert (a + b)[0] == a[0];
      assert (a + b)[1..] == a[1..] + b;
      ConcatAppend(a[1..], b);
    } else {
      assert a + b == b;
    }
  }

  /** Splitting loses exactly the whitespace of `s`. */
  lemma {:induction false} SplitKeepsContent(s: string)
    ensures Concat(SplitOnWhitespace(s)) == RemoveWhitespace(s)
    decreases |s|
  {
    var w := WordLength(s);
    if w == |s| {
      assert s[..w] == s;
      RemoveWhitespaceOfWord(s);
      assert Concat([s]) == s + Concat([]);
    } else {
      var word := s[..w];
      var rest := s[w..];
      var r := RunLength(rest);
      var tail := rest[r..];
      assert SplitOnWhitespace(s) == [word] + SplitOnWhitespace(tail);
      SplitKeepsContent(tail);
      WordRunTail(s, w, r);
      ConcatCons(word, SplitOnWhitespace(tail));
    }
  }

  lemma ConcatCons(head: string, tail: seq<string>)
    ensures Concat([head] + tail) == head + Concat(tail)
  {
    assert ([head] + tail)[1..] == tail;
  }

  /** Removing whitespace from a word, a run and a tail keeps the word and the tail's characters. */
  lemma WordRunTail(s: string, w: nat, r: nat)
    requires w <= |s| && WhitespaceFree(s[..w])
    requires r <= |s| - w && AllWhitespace(s[w..][..r])
    ensures RemoveWhitespace(s) == s[..w] + RemoveWhitespace(s[w..][r..])
  {
    var rest := s[w..];
    assert s == s[..w] + rest;
    assert rest == rest[..r] + rest[r..];
    RemoveWhitespaceAppend(s[..w], rest);
    RemoveWhitespaceAppend(rest[..r], rest[r..]);
    RemoveWhitespaceOfWord(s[..w]);
    RemoveWhitespaceOfRun(rest[..r]);
  }

  /** Dropping empty strings does not change the concatenation. */
  lemma {:induction false} DropEmptyKeepsContent(pieces: seq<string>)
    ensures Concat(DropEmpty(pieces)) == Concat(pieces)
    decreases |pieces|
  {
    if pieces != [] {
      DropEmptyKeepsContent(pieces[1..]);
      if pieces[0] != [] {
        ConcatAppend([pieces[0]], DropEmpty(pieces[1..]));
        assert Concat([pieces[0]]) == pieces[0] + Concat([]);
      }
    }
  }

  /**
   `filter` distributes over concatenation, keeping order and multiplicity; with the
   single-element cases this determines `DropEmpty` on every list.
   */
  lemma {:induction false} DropEmptyAppend(a: seq<string>, b: seq<string>)
    ensures DropEmpty(a + b) == DropEmpty(a) + DropEmpty(b)
    ensures forall t :: DropEmpty([t]) == (if t == [] then [] else [t])
    decreases |a|
  {
    if a == [] {
      assert a + b == b;
    } else {
      assert (a + b)[0] == a[0];
      assert (a + b)[1..] == a[1..] + b;
      DropEmptyAppend(a[1..], b);
    }
  }

  /** A string of whitespace only (including `""`) has no tokens. */
  lemma TokensOfBlank(s: string)
    requires AllWhitespace(s)
    ensures Tokens(s) == []
  {
    RemoveWhitespaceOfRun(s);
  }

  /** A non-empty whitespace-free string is a single token. */
  lemma TokensOfWord(s: string)
    requires s != [] && WhitespaceFree(s)
    ensures Tokens(s) == [s]
  {
    WordOfWhitespaceFree(s, []);
    assert s + [] == s;
  }

  /** The word at the start of `w + rest` is `w` when `rest` is empty or starts with whitespace. */
  lemma {:induction false} WordOfWhitespaceFree(w: string, rest: string)
    requires WhitespaceFree(w)
    requires rest == [] || IsWhitespace(rest[0])
    ensures WordLength(w + rest) == |w|
    decreases |w|
  {
    if w != [] {
      assert (w + rest)[1..] == w[1..] + rest;
      WordOfWhitespaceFree(w[1..], rest);
    } else {
      assert w + rest == rest;
    }
  }

  predicate WellFormedTokens(parts: seq<string>) {
    forall i :: 0 <= i < |parts| ==> parts[i] != [] && WhitespaceFree(parts[i])
  }

  /**
   `split(/\s+/)` breaks once per maximal whitespace run: a word, a non-empty run and a
   rest that does not start with whitespace split into the word and the pieces of the rest.
   */
  lemma {:induction false} SplitWordRun(w: string, sep: string, r: string)
    requires WhitespaceFree(w)
    requires sep != [] && AllWhitespace(sep)
    requires r == [] || !IsWhitespace(r[0])
    ensures SplitOnWhitespace(w + sep + r) == [w] + SplitOnWhitespace(r)
  {
    var s := w + sep + r;
    assert s == w + (sep + r);
    WordOfWhitespaceFree(w, sep + r);
    RunOfWhitespace(sep, r);
    assert s[..|w|] == w && s[|w|..] == sep + r;
    assert (sep + r)[|sep|..] == r;
  }

  /** The whitespace run at the start of `sep + x` is `sep` when `x` does not start with whitespace. */
  lemma {:induction false} RunOfWhitespace(sep: string, x: string)
    requires AllWhitespace(sep)
    requires x == [] || !IsWhitespace(x[0])
    ensures RunLength(sep + x) == |sep|
    decreases |sep|
  {
    if sep != [] {
      assert (sep + x)[1..] == sep[1..] + x;
      RunOfWhitespace(sep[1..], x);
    } else {
      assert sep + x == x;
    }
  }

  /** Leading whitespace contributes no token: it only yields an empty piece, which is dropped. */
  lemma {:induction false} TokensAfterRun(sep: string, x: string)
    requires AllWhitespace(sep)
    requires x == [] || !IsWhitespace(x[0])
    ensures Tokens(sep + x) == Tokens(x)
  {
    var s := sep + x;
    if sep == [] {
      assert s == x;
    } else {
      assert WordLength(s) == 0;
      RunOfWhitespace(sep, x);
      assert s[0..] == s && s[|sep|..] == x;
      assert SplitOnWhitespace(s) == [""] + SplitOnWhitespace(x);
      assert DropEmpty([""] + SplitOnWhitespace(x)) == DropEmpty(SplitOnWhitespace(x)) by {
        assert ([""] + SplitOnWhitespace(x))[1..] == SplitOnWhitespace(x);
      }
    }
  }

  /** A word followed by nothing or by whitespace is the first token, and the rest follows. */
  lemma {:induction false} TokensOfWordThen(w: string, r: string)
    requires w != [] && WhitespaceFree(w)
    requires r == [] || IsWhitespace(r[0])
    ensures Tokens(w + r) == [w] + Tokens(r)
  {
    var s := w + r;
    WordOfWhitespaceFree(w, r);
    if r == [] {
      assert s == w;
      assert Tokens([]) == [];
    } else {
      var tail := r[RunLength(r)..];
      assert s[..|w|] == w && s[|w|..] == r;
      assert SplitOnWhitespace(s) == [w] + SplitOnWhitespace(tail);
      assert WordLength(r) == 0 && r[0..] == r;
      assert SplitOnWhitespace(r) == [""] + SplitOnWhitespace(tail);
      assert ([w] + SplitOnWhitespace(tail))[1..] == SplitOnWhitespace(tail);
      assert ([""] + SplitOnWhitespace(tail))[1..] == SplitOnWhitespace(tail);
    }
  }

  /**
   Tokenising well-formed tokens separated by whitespace runs gives exactly the tokens
   back, whatever the runs are.
   */
  lemma {:induction false} TokensInterleaveRoundTrip(seps: seq<string>, parts: seq<string>)
    requires WellFormedTokens(parts)
    requires Separators(seps, |parts|)
    ensures Tokens(Interleave(seps, parts)) == parts
    decreases |parts|
  {
    if parts == [] {
      TokensOfBlank(seps[0]);
    } else {
      TokensInterleaveStep(seps, parts);
      TokensInterleaveRoundTrip(seps[1..], parts[1..]);
      assert parts == [parts[0]] + parts[1..];
    }
  }

  /** The first token of an interleaving is its first part, followed by the tokens of the rest. */
  lemma {:induction false} TokensInterleaveStep(seps: seq<string>, parts: seq<string>)
    requires parts != [] && WellFormedTokens(parts)
    requires Separators(seps, |parts|)
    ensures Separators(seps[1..], |parts| - 1)
    ensures Tokens(Interleave(seps, parts)) == [parts[0]] + Tokens(Interleave(seps[1..], parts[1..]))
  {
    var r := Interleave(seps[1..], parts[1..]);
    var x := parts[0] + r;
    assert Interleave(seps, parts) == seps[0] + x;
    InterleaveTailStartsWithRun(seps, parts);
    TokensOfWordThen(parts[0], r);
    assert Tokens(x) == [parts[0]] + Tokens(r);
    assert x[0] == parts[0][0];
    TokensAfterRun(seps[0], x);
  }

  /** After the first part of an interleaving comes nothing or a whitespace character. */
  lemma {:induction false} InterleaveTailStartsWithRun(seps: seq<string>, parts: seq<string>)
    requires parts != [] && Separators(seps, |parts|)
    ensures var r := Interleave(seps[1..], parts[1..]);
            r == [] || IsWhitespace(r[0])
  {
    var r := Interleave(seps[1..], parts[1..]);
    if |parts| > 1 {
      assert seps[1..][0] == seps[1] && seps[1] != [];
      assert r[0] == seps[1][0];
    } else {
      assert r == seps[1];
    }
  }

  // ---------------------------------------------------------------------------
  // Number.parseInt(s, 10)

  predicate IsDigit(c: char) {
    '0' <= c <= '9'
  }

  predicate AllDigits(s: string) {
    forall i :: 0 <= i < |s| ==> IsDigit(s[i])
  }

  function DigitValue(c: char): nat
    requires IsDigit(c)
  {
    (c as int) - ('0' as int)
  }

  function DigitChar(d: nat): (c: char)
    requires d < 10
    ensures IsDigit(c) && DigitValue(c) == d
  {
    ('0' as int + d) as char
  }

  /** Length of the longest prefix of `s` made of decimal digits. */
  function DigitRunLength(s: string): (n: nat)
    ensures n <= |s|
    ensures AllDigits(s[..n])
    ensures n < |s| ==> !IsDigit(s[n])
  {
    if s == [] || !IsDigit(s[0]) then 0 else 1 + DigitRunLength(s[1..])
  }

  /** The value of a string of decimal digits, most significant first. */
  function DigitsValue(d: string): nat
    requires AllDigits(d)
    decreases |d|
  {
    if d == [] then 0 else DigitsValue(d[..|d| - 1]) * 10 + DigitValue(d[|d| - 1])
  }

  /**
   `Number.parseInt(s, 10)`: skip leading white space, take an optional `+` or `-`,
   then the longest run of decimal digits; `None` (`NaN`) when that run is empty.
   Everything after the run is ignored.
   */
  function ParseInt(s: string): (r: Option<int>)
    ensures r.Some? ==> exists i :: 0 <= i < |s| && IsDigit(s[i])
    ensures |s| > 0 && IsDigit(s[0]) ==> r.Some? && r.value >= 0
    ensures |s| > 0 && !IsWhitespace(s[0]) && !IsDigit(s[0]) && s[0] != '+' && s[0] != '-' ==> r.None?
  {
    ParseSigned(s[RunLength(s)..])
  }

  /** The sign and digits that follow the skipped white space. */
  function ParseSigned(t: string): Option<int> {
    if |t| > 0 && t[0] == '-' then
      match ParseDigits(t[1..])
      case None => None
      case Some(magnitude) => Some(-(magnitude as int))
    else if |t| > 0 && t[0] == '+' then
      match ParseDigits(t[1..])
      case None => None
      case Some(magnitude) => Some(magnitude)
    else
      match ParseDigits(t)
      case None => None
      case Some(magnitude) => Some(magnitude)
  }

  /** The value of the leading run of digits of `b`, or `None` when there is none. */
  function ParseDigits(b: string): Option<nat> {
    var n := DigitRunLength(b);
    if n == 0 then None else Some(DigitsValue(b[..n]))
  }

  /** Decimal digits of `n`, without leading zeros. */
  function NatToString(n: nat): (s: string)
    ensures |s| >= 1 && AllDigits(s)
    decreases n
  {
    if n < 10 then [DigitChar(n)] else NatToString(n / 10) + [DigitChar(n % 10)]
  }

  /** `String(n)` for an integer `n`. */
  function IntToString(n: int): string {
    if n < 0 then "-" + NatToString(-n) else NatToString(n)
  }

  lemma {:induction false} NatToStringValue(n: nat)
    ensures DigitsValue(NatToString(n)) == n
    decreases n
  {
    var s := NatToString(n);
    if n >= 10 {
      NatToStringValue(n / 10);
      assert s[..|s| - 1] == NatToString(n / 10);
    }
  }

  lemma {:induction false} DigitRunOfDigits(d: string, rest: string)
    requires AllDigits(d)
    requires rest == [] || !IsDigit(rest[0])
    ensures DigitRunLength(d + rest) == |d|
    decreases |d|
  {
    if d != [] {
      assert (d + rest)[1..] == d[1..] + rest;
      DigitRunOfDigits(d[1..], rest);
    } else {
      assert d + rest == rest;
    }
  }

  /**
   `parseInt` of white space, an optional sign, a run of digits and text that does not
   continue the run is the run's value, negated after a minus sign.
   */
  lemma {:induction false} ParseIntOfDigits(ws: string, sign: string, d: string, rest: string)
    requires AllWhitespace(ws)
    requires sign == "" || sign == "+" || sign == "-"
    requires d != [] && AllDigits(d)
    requires rest == [] || !IsDigit(rest[0])
    ensures ParseInt(ws + sign + d + rest) == Some(if sign == "-" then -(DigitsValue(d) as int) else DigitsValue(d))
  {
    var b := d + rest;
    var t := sign + b;
    Regroup(ws, sign, d, rest);
    assert t[0] == (if sign == "" then d[0] else sign[0]);
    RunOfWhitespace(ws, t);
    assert (ws + t)[|ws|..] == t;
    ParseDigitsOfRun(d, rest);
    ParseSignedOfMagnitude(sign, b, DigitsValue(d));
  }

  /** Regrouping a four-fold concatenation. */
  lemma Regroup(a: string, b: string, c: string, d: string)
    ensures a + b + c + d == a + (b + (c + d))
  {
  }

  /**
   `parseInt` is `NaN` when no digit follows the white space and the optional sign:
   a second sign, a space after the sign, or any other character stops it.
   */
  lemma {:induction false} ParseIntNoDigitAfterSign(ws: string, sign: string, rest: string)
    requires AllWhitespace(ws)
    requires sign == "" || sign == "+" || sign == "-"
    requires rest == [] || !IsDigit(rest[0])
    requires sign == "" && rest != [] ==> !IsWhitespace(rest[0]) && rest[0] != '+' && rest[0] != '-'
    ensures ParseInt(ws + sign + rest) == None
  {
    var t := sign + rest;
    assert ws + sign + rest == ws + t;
    assert DigitRunLength(rest) == 0;
    if sign == "" {
      assert t == rest;
    } else {
      assert t[0] == sign[0] && t[1..] == rest;
    }
    SkipLeadingWhitespace(ws, t);
  }

  /** `parseInt` skips exactly the leading white space and reads the sign and digits after it. */
  lemma {:induction false} SkipLeadingWhitespace(ws: string, t: string)
    requires AllWhitespace(ws)
    requires t == [] || !IsWhitespace(t[0])
    ensures ParseInt(ws + t) == ParseSigned(t)
  {
    RunOfWhitespace(ws, t);
    assert (ws + t)[|ws|..] == t;
  }

  /** The sign in front of a digit run selects the sign of its magnitude. */
  lemma {:induction false} ParseSignedOfMagnitude(sign: string, b: string, v: nat)
    requires sign == "" || sign == "+" || sign == "-"
    requires b != [] && IsDigit(b[0]) && ParseDigits(b) == Some(v)
    ensures ParseSigned(sign + b) == Some(if sign == "-" then -(v as int) else v)
  {
    var t := sign + b;
    if sign == "" {
      assert t == b;
    } else {
      assert t[0] == sign[0] && t[1..] == b;
    }
  }

  /** The leading run of digits of `d + rest` is `d` when `rest` does not continue it. */
  lemma {:induction false} ParseDigitsOfRun(d: string, rest: string)
    requires d != [] && AllDigits(d)
    requires rest == [] || !IsDigit(rest[0])
    ensures ParseDigits(d + rest) == Some(DigitsValue(d))
  {
    DigitRunOfDigits(d, rest);
    assert (d + rest)[..|d|] == d;
  }

  /**
   `parseInt` reads back the decimal form of any integer, whatever non-digit text
   follows it (so `"8080abc"` parses as 8080).
   */
  lemma {:induction false} ParseIntOfIntToString(n: int, rest: string)
    requires rest == [] || !IsDigit(rest[0])
    ensures ParseInt(IntToString(n) + rest) == Some(n)
  {
    var m := if n < 0 then -n else n;
    var d := NatToString(m);
    NatToStringValue(m);
    var sign := if n < 0 then "-" else "";
    assert IntToString(n) == sign + d;
    assert "" + sign == sign;
    ParseIntOfDigits("", sign, d, rest);
  }

  /** A string with no decimal digit parses to `NaN`. */
  lemma ParseIntWithoutDigits(s: string)
    requires forall i :: 0 <= i < |s| ==> !IsDigit(s[i])
    ensures ParseInt(s) == None
  {
  }

  // ---------------------------------------------------------------------------
  // Array.prototype.indexOf

  /** `xs.indexOf(x)` on an array of strings: the position of the first occurrence of `x`, or -1. */
  function IndexOf(xs: seq<string>, x: string): (r: int)
    ensures -1 <= r < |xs|
    ensures r == -1 <==> x !in xs
    ensures 0 <= r ==> xs[r] == x && x !in xs[..r]
  {
    if xs == [] then -1
    else if xs[0] == x then 0
    else
      var k := IndexOf(xs[1..], x);
      if k == -1 then -1
      else
        assert xs[..k + 1] == [xs[0]] + xs[1..][..k];
        k + 1
  }
}
