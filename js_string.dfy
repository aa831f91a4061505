/**
  The few JavaScript string operations the extension relies on, over
  `string` (a sequence of UTF-16 code units as far as these operations
  are concerned): `trim`, `split(/\s+/)`, `includes` and the decimal form
  of a non-negative integer.
 */
module JsString {

  /**
    The characters `trim` removes and `\s` matches: WhiteSpace and
    LineTerminator of ECMAScript (sections 12.2 and 12.3 of ECMA-262).
   */
  predicate IsWhitespace(c: char) {
    c == '\t' || c == '\n' || c == '\U{000B}' || c == '\U{000C}' || c == '\r' || c == ' '
    || c == '\U{00A0}' || c == '\U{1680}' || ('\U{2000}' <= c <= '\U{200A}')
    || c == '\U{2028}' || c == '\U{2029}' || c == '\U{202F}' || c == '\U{205F}'
    || c == '\U{3000}' || c == '\U{FEFF}'
  }

  /** No character of `s` is whitespace. */
  predicate NoWhitespace(s: string) {
    forall i :: 0 <= i < |s| ==> !IsWhitespace(s[i])
  }

  /** Every character of `s` is whitespace (so `s.trim()` is empty). */
  predicate IsBlank(s: string) {
    forall i :: 0 <= i < |s| ==> IsWhitespace(s[i])
  }

  /** `s` without its leading whitespace. */
  function TrimStart(s: string): string {
    if s != [] && IsWhitespace(s[0]) then TrimStart(s[1..]) else s
  }

  /** `s` without its trailing whitespace. */
  function TrimEnd(s: string): string {
    if s != [] && IsWhitespace(s[|s| - 1]) then TrimEnd(s[..|s| - 1]) else s
  }

  /** `s.trim()`: leading and trailing whitespace removed. */
  function Trim(s: string): string {
    TrimEnd(TrimStart(s))
  }

  /** `TrimStart` drops a blank prefix and stops at the first non-whitespace character. */
  lemma {:induction false} TrimStartSpec(s: string)
    ensures var r := TrimStart(s);
            |r| <= |s| && r == s[|s| - |r|..] && (r == [] || !IsWhitespace(r[0])) && IsBlank(s[..|s| - |r|])
    decreases |s|
  {
    if s != [] && IsWhitespace(s[0]) {
      TrimStartSpec(s[1..]);
      var r := TrimStart(s);
      assert s[..|s| - |r|] == [s[0]] + s[1..][..|s| - 1 - |r|];
    }
  }

  /** `TrimEnd` drops a blank suffix and stops at the last non-whitespace character. */
  lemma {:induction false} TrimEndSpec(s: string)
    ensures var r := TrimEnd(s);
            |r| <= |s| && r == s[..|r|] && (r == [] || !IsWhitespace(r[|r| - 1])) && IsBlank(s[|r|..])
    decreases |s|
  {
    if s != [] && IsWhitespace(s[|s| - 1]) {
      TrimEndSpec(s[..|s| - 1]);
      var r := TrimEnd(s);
      assert s[|r|..] == s[..|s| - 1][|r|..] + [s[|s| - 1]];
    }
  }

  /** A trimmed string neither starts nor ends with whitespace. */
  lemma TrimSpec(s: string)
    ensures var r := Trim(s);
            r == [] || (!IsWhitespace(r[0]) && !IsWhitespace(r[|r| - 1]))
  {
    var t := TrimStart(s);
    TrimStartSpec(s);
    TrimEndSpec(t);
    var r := TrimEnd(t);
    if r != [] {
      assert r[0] == t[0];
    }
  }

  /** `trim` keeps a middle part: what it drops on either side is whitespace. */
  lemma TrimIsInfix(s: string)
    ensures exists i, j :: 0 <= i <= j <= |s| && Trim(s) == s[i..j] && IsBlank(s[..i]) && IsBlank(s[j..])
  {
    var t := TrimStart(s);
    TrimStartSpec(s);
    TrimEndSpec(t);
    var i := |s| - |t|;
    var r := TrimEnd(t);
    assert r == s[i..i + |r|];
    assert s[i + |r|..] == t[|r|..];
  }

  /** Trimming twice is trimming once. */
  lemma TrimIdempotent(s: string)
    ensures Trim(Trim(s)) == Trim(s)
  {
    var r := Trim(s);
    TrimSpec(s);
    if r != [] {
      assert TrimStart(r) == r;
      assert TrimEnd(r) == r;
    }
  }

  /** `" Hola ".trim()` is `"Hola"`. */
  lemma TrimHola()
    ensures Trim(" Hola ") == "Hola"
  {
    assert TrimStart(" Hola ") == "Hola " by {
      var s := " Hola ";
      assert IsWhitespace(s[0]) && s[1..] == "Hola ";
      assert !IsWhitespace("Hola "[0]);
    }
    assert TrimEnd("Hola ") == "Hola" by {
      var t := "Hola ";
      assert IsWhitespace(t[4]) && t[..4] == "Hola";
      assert !IsWhitespace("Hola"[3]);
    }
  }

  /** Text is blank exactly when it trims to nothing. */
  lemma {:induction false} TrimEmptyIffBlank(s: string)
    ensures Trim(s) == [] <==> IsBlank(s)
  {
    var t := TrimStart(s);
    TrimStartSpec(s);
    TrimEndSpec(t);
    if IsBlank(s) {
      BlankTrimsStart(s);
    } else {
      var i :| 0 <= i < |s| && !IsWhitespace(s[i]);
      assert i >= |s| - |t|;
      assert t[i - (|s| - |t|)] == s[i];
      TrimEndKeeps(t, i - (|s| - |t|));
    }
  }

  lemma {:induction false} BlankTrimsStart(s: string)
    requires IsBlank(s)
    ensures TrimStart(s) == []
    decreases |s|
  {
    if s != [] {
      BlankTrimsStart(s[1..]);
    }
  }

  /** `TrimEnd` keeps every character up to the last non-whitespace one. */
  lemma TrimEndKeeps(s: string, i: nat)
    requires i < |s| && !IsWhitespace(s[i])
    ensures i < |TrimEnd(s)|
  {
  }

  /** Pieces of `s` separated by runs of whitespace: `s.split(/\s+/)`. */
  function Split(s: string): (pieces: seq<string>)
    ensures |pieces| >= 1
    ensures forall k :: 0 <= k < |pieces| ==> NoWhitespace(pieces[k])
    decreases |s|
  {
    var i := FirstWhitespace(s, 0);
    if i == |s| then [s]
    else [s[..i]] + Split(s[EndOfRun(s, i)..])
  }

  /** The index of the first whitespace at or after `from`, or `|s|`. */
  function FirstWhitespace(s: string, from: nat): (i: nat)
    requires from <= |s|
    ensures from <= i <= |s|
    ensures NoWhitespace(s[from..i])
    ensures i < |s| ==> IsWhitespace(s[i])
    decreases |s| - from
  {
    if from == |s| || IsWhitespace(s[from]) then from else FirstWhitespace(s, from + 1)
  }

  /** The end of the whitespace run that starts at `i`. */
  function EndOfRun(s: string, i: nat): (j: nat)
    requires i < |s| && IsWhitespace(s[i])
    ensures i < j <= |s|
    ensures IsBlank(s[i..j])
    ensures j < |s| ==> !IsWhitespace(s[j])
    decreases |s| - i
  {
    if i + 1 < |s| && IsWhitespace(s[i + 1]) then EndOfRun(s, i + 1) else i + 1
  }

  /** The pieces joined back with the separators between them. */
  function Join(pieces: seq<string>, seps: seq<string>): string
    requires |pieces| == |seps| + 1
  {
    if seps == [] then pieces[0] else pieces[0] + seps[0] + Join(pieces[1..], seps[1..])
  }

  /** The whitespace runs that `Split` cuts at, in order. */
  function Separators(s: string): (seps: seq<string>)
    ensures |seps| == |Split(s)| - 1
    decreases |s|
  {
    var i := FirstWhitespace(s, 0);
    if i == |s| then [] else [s[i..EndOfRun(s, i)]] + Separators(s[EndOfRun(s, i)..])
  }

  /**
    `split(/\s+/)` cuts at every maximal whitespace run and nowhere else:
    the pieces hold no whitespace, the separators are non-empty runs of
    whitespace, every piece between two separators is non-empty, and
    pieces and separators put back together give `s`.
   */
  lemma {:induction false} SplitJoin(s: string)
    ensures forall k :: 0 <= k < |Separators(s)| ==> Separators(s)[k] != [] && IsBlank(Separators(s)[k])
    ensures forall k :: 0 < k < |Split(s)| - 1 ==> Split(s)[k] != []
    ensures Join(Split(s), Separators(s)) == s
    decreases |s|
  {
    var i := FirstWhitespace(s, 0);
    if i < |s| {
      var j := EndOfRun(s, i);
      var rest := s[j..];
      SplitJoin(rest);
      assert s == s[..i] + s[i..j] + rest;
      if |Split(rest)| >= 2 {
        assert FirstWhitespace(rest, 0) < |rest|;
        assert FirstWhitespace(rest, 0) > 0;
        assert Split(rest)[0] != [];
      }
      forall k | 0 < k < |Split(s)| - 1
        ensures Split(s)[k] != []
      {
        assert Split(s)[k] == Split(rest)[k - 1];
      }
    }
  }

  /**
    The outer pieces are empty only at whitespace: the first piece is
    non-empty when `s` starts with a non-whitespace character, the last
    when it ends with one.
   */
  lemma {:induction false} SplitEnds(s: string)
    ensures s != [] && !IsWhitespace(s[0]) ==> Split(s)[0] != []
    ensures s != [] && !IsWhitespace(s[|s| - 1]) ==> Split(s)[|Split(s)| - 1] != []
    decreases |s|
  {
    var i := FirstWhitespace(s, 0);
    if i < |s| {
      var j := EndOfRun(s, i);
      SplitEnds(s[j..]);
      if j == |s| {
        assert s[i..j][j - 1 - i] == s[|s| - 1];
      } else {
        assert s[j..][|s[j..]| - 1] == s[|s| - 1];
      }
    }
  }

  /** The empty string splits into one empty piece, so blank text counts as one word. */
  lemma SplitEmpty()
    ensures Split("") == [""]
  {
  }

  /** Text without whitespace is a single piece. */
  lemma SplitWord(s: string)
    requires NoWhitespace(s)
    ensures Split(s) == [s]
  {
    assert FirstWhitespace(s, 0) == |s|;
  }

  /** `s.includes(sub)`: `sub` occurs in `s` starting at some index. */
  function Contains(s: string, sub: string): bool
    decreases |s|
  {
    if |sub| <= |s| && s[..|sub|] == sub then true
    else if s == [] then false
    else Contains(s[1..], sub)
  }

  /** `sub` occurs in `s` at index `i`. */
  predicate OccursAt(s: string, sub: string, i: nat) {
    i + |sub| <= |s| && s[i..i + |sub|] == sub
  }

  /** `Contains` finds an occurrence exactly when there is one. */
  lemma {:induction false} ContainsIff(s: string, sub: string)
    ensures Contains(s, sub) <==> exists i: nat :: OccursAt(s, sub, i)
    decreases |s|
  {
    if |sub| <= |s| && s[..|sub|] == sub {
      assert OccursAt(s, sub, 0);
    } else if s != [] {
      ContainsIff(s[1..], sub);
      if exists i: nat :: OccursAt(s, sub, i) {
        var i: nat :| OccursAt(s, sub, i);
        assert i != 0;
        assert OccursAt(s[1..], sub, i - 1);
      }
      if exists i: nat :: OccursAt(s[1..], sub, i) {
        var i: nat :| OccursAt(s[1..], sub, i);
        assert OccursAt(s, sub, i + 1);
      }
    } else {
      assert forall i: nat :: !OccursAt(s, sub, i);
    }
  }

  /** The digit character for `d`. */
  function DigitChar(d: nat): (c: char)
    requires d < 10
    ensures '0' <= c <= '9'
  {
    ['0', '1', '2', '3', '4', '5', '6', '7', '8', '9'][d]
  }

  /** The value of a digit character. */
  function DigitValue(c: char): (d: nat)
    requires '0' <= c <= '9'
    ensures d < 10
  {
    if c == '0' then 0 else if c == '1' then 1 else if c == '2' then 2 else if c == '3' then 3
    else if c == '4' then 4 else if c == '5' then 5 else if c == '6' then 6 else if c == '7' then 7
    else if c == '8' then 8 else 9
  }

  predicate IsDigits(s: string) {
    forall i :: 0 <= i < |s| ==> '0' <= s[i] <= '9'
  }

  /**
    `String(n)` for a non-negative integer below 10^21: its decimal digits,
    without leading zeros.
   */
  function Decimal(n: nat): (s: string)
    ensures |s| >= 1 && IsDigits(s)
    ensures s[0] == '0' ==> n == 0
  {
    if n < 10 then [DigitChar(n)] else Decimal(n / 10) + [DigitChar(n % 10)]
  }

  /** The number a string of decimal digits denotes. */
  function DecimalValue(s: string): nat
    requires IsDigits(s)
  {
    if s == [] then 0 else DecimalValue(s[..|s| - 1]) * 10 + DigitValue(s[|s| - 1])
  }

  lemma DigitRoundTrip(d: nat)
    requires d < 10
    ensures DigitValue(DigitChar(d)) == d
  {
  }

  /** Reading back the decimal form gives the number. */
  lemma {:induction false} DecimalRoundTrip(n: nat)
    ensures DecimalValue(Decimal(n)) == n
  {
    DigitRoundTrip(n % 10);
    if n >= 10 {
      DecimalRoundTrip(n / 10);
      var s := Decimal(n);
      assert s[..|s| - 1] == Decimal(n / 10);
    }
  }
}
