/** The string operations the handlers rely on, with ECMAScript semantics:
    `String.prototype.trim`, truthiness of an optional string, `a || b`,
    `Array.prototype.join` and the decimal rendering of a non-negative
    integer in a template literal. `Split` (one-character
    `String.prototype.split`) is not called by the handlers; it is the
    reading side against which a joined mail body is shown to come apart
    into its lines again. */
module Strings {
  import opened Wrappers

  /** The characters `trim` removes: ECMAScript WhiteSpace and LineTerminator. */
  predicate IsWhitespace(c: char) {
    || c == '\t' || c == '\n' || c == '\U{B}' || c == '\U{C}' || c == '\r' || c == ' '
    || c == '\U{A0}' || c == '\U{1680}' || ('\U{2000}' <= c <= '\U{200A}')
    || c == '\U{2028}' || c == '\U{2029}' || c == '\U{202F}' || c == '\U{205F}'
    || c == '\U{3000}' || c == '\U{FEFF}'
  }

  predicate AllWhitespace(s: string) {
    forall i :: 0 <= i < |s| ==> IsWhitespace(s[i])
  }

  /** A string with no whitespace at either end. */
  predicate IsTrimmed(s: string) {
    s == [] || (!IsWhitespace(s[0]) && !IsWhitespace(s[|s| - 1]))
  }

  /** Number of leading whitespace characters. */
  function LeadingWhitespace(s: string): (k: nat)
    ensures k <= |s|
    ensures forall p :: 0 <= p < k ==> IsWhitespace(s[p])
    ensures k == |s| || !IsWhitespace(s[k])
  {
    if s == [] || !IsWhitespace(s[0]) then 0
    else 1 + LeadingWhitespace(s[1..])
  }

  /** Number of trailing whitespace characters. */
  function TrailingWhitespace(s: string): (k: nat)
    ensures k <= |s|
    ensures forall p :: |s| - k <= p < |s| ==> IsWhitespace(s[p])
    ensures k == |s| || !IsWhitespace(s[|s| - 1 - k])
  {
    if s == [] || !IsWhitespace(s[|s| - 1]) then 0
    else 1 + TrailingWhitespace(s[..|s| - 1])
  }

  /** `s.trim()`: the slice of `s` between its leading and its trailing
      whitespace. */
  function Trim(s: string): (r: string)
    ensures IsTrimmed(r)
    ensures exists i, j :: 0 <= i <= j <= |s| && r == s[i..j]
                           && AllWhitespace(s[..i]) && AllWhitespace(s[j..])
    ensures r == [] <==> AllWhitespace(s)
  {
    var i := LeadingWhitespace(s);
    var j := i + |s[i..]| - TrailingWhitespace(s[i..]);
    TrimSlice(s, i, j);
    s[i..j]
  }

  lemma TrimSlice(s: string, i: nat, j: nat)
    requires i == LeadingWhitespace(s) && j == i + |s[i..]| - TrailingWhitespace(s[i..])
    ensures i <= j <= |s| && IsTrimmed(s[i..j])
    ensures AllWhitespace(s[..i]) && AllWhitespace(s[j..])
    ensures s[i..j] == [] <==> AllWhitespace(s)
  {
    TrailingOfSuffix(s, i, j);
    assert AllWhitespace(s[..i]) by {
      forall p | 0 <= p < i ensures IsWhitespace(s[..i][p]) { assert s[..i][p] == s[p]; }
    }
    assert AllWhitespace(s[j..]) by {
      forall p | 0 <= p < |s| - j ensures IsWhitespace(s[j..][p]) { assert s[j..][p] == s[j + p]; }
    }
    if i < j {
      assert s[i..j][0] == s[i] && s[i..j][j - i - 1] == s[j - 1];
    }
    if i == |s| {
      assert AllWhitespace(s) by { assert s == s[..i]; }
    } else {
      assert !IsWhitespace(s[i]);
    }
  }

  /** What the trailing count of `s[i..]` says about `s` itself. */
  lemma TrailingOfSuffix(s: string, i: nat, j: nat)
    requires i <= |s| && j == i + |s[i..]| - TrailingWhitespace(s[i..])
    ensures i <= j <= |s|
    ensures forall p :: j <= p < |s| ==> IsWhitespace(s[p])
    ensures i < j ==> !IsWhitespace(s[j - 1])
  {
    var t := s[i..];
    var m := TrailingWhitespace(t);
    forall p | j <= p < |s| ensures IsWhitespace(s[p]) {
      assert s[p] == t[p - i];
    }
    if i < j {
      assert s[j - 1] == t[|t| - 1 - m];
    }
  }

  /** Trimming a string that is already trimmed gives it back. */
  lemma TrimOfTrimmed(s: string)
    requires IsTrimmed(s)
    ensures Trim(s) == s
  {
    if s != [] {
      assert LeadingWhitespace(s) == 0;
      assert TrailingWhitespace(s) == 0;
    }
  }

  /** `trim` is idempotent. */
  lemma TrimIdempotent(s: string)
    ensures Trim(Trim(s)) == Trim(s)
  {
    TrimOfTrimmed(Trim(s));
  }

  /** `!x?.trim()`: the property is absent, or trims to the empty string. */
  predicate Blank(x: Option<string>)
    ensures Blank(x) <==> x.None? || AllWhitespace(x.value)
  {
    x.None? || Trim(x.value) == ""
  }

  /** JavaScript truthiness of a value that is a string or undefined. */
  predicate Truthy(x: Option<string>)
    ensures !Truthy(x) ==> Blank(x)
  {
    x.Some? && x.value != ""
  }

  /** `a || b` on values that are strings or undefined. */
  function Or(a: Option<string>, b: Option<string>): (r: Option<string>)
    ensures Truthy(r) <==> Truthy(a) || Truthy(b)
    ensures Truthy(a) ==> r == a
    ensures !Truthy(a) ==> r == b
  {
    if Truthy(a) then a else b
  }

  /** `x || fallback` rendered in a template literal, for a string fallback. */
  function OrElse(x: Option<string>, fallback: string): (r: string)
    ensures Truthy(x) ==> r == x.value
    ensures !Truthy(x) ==> r == fallback
  {
    Or(x, Some(fallback)).value
  }

  /** Total length of the pieces. */
  function PiecesLength(xs: seq<string>): nat {
    if xs == [] then 0 else |xs[0]| + PiecesLength(xs[1..])
  }

  /** `xs.join(sep)`: the pieces in order, one separator between each two. */
  function Join(xs: seq<string>, sep: string): (r: string)
    ensures xs == [] ==> r == ""
    ensures xs != [] ==> |r| == PiecesLength(xs) + (|xs| - 1) * |sep|
    ensures xs != [] ==> r[..|xs[0]|] == xs[0]
  {
    if |xs| == 0 then ""
    else if |xs| == 1 then xs[0]
    else xs[0] + sep + Join(xs[1..], sep)
  }

  /** `s.split(c)` for a one-character separator: the pieces between the
      occurrences of `c`; the empty string gives one empty piece. */
  function Split(s: string, c: char): (r: seq<string>)
    ensures |r| >= 1
  {
    if s == [] then [""]
    else if s[0] == c then [""] + Split(s[1..], c)
    else
      var rest := Split(s[1..], c);
      [[s[0]] + rest[0]] + rest[1..]
  }

  /** Splitting a string without the separator gives the string alone. */
  lemma {:induction false} SplitWithout(s: string, c: char)
    requires c !in s
    ensures Split(s, c) == [s]
  {
    if s != [] {
      SplitWithout(s[1..], c);
      assert [s[0]] + s[1..] == s;
    }
  }

  /** Splitting at the first separator. */
  lemma {:induction false} SplitAtFirst(a: string, c: char, b: string)
    requires c !in a
    ensures Split(a + [c] + b, c) == [a] + Split(b, c)
  {
    if a == [] {
      assert a + [c] + b == [c] + b;
      assert ([c] + b)[1..] == b;
    } else {
      var s := a + [c] + b;
      assert s[0] == a[0] && s[1..] == a[1..] + [c] + b;
      SplitAtFirst(a[1..], c, b);
      assert [a[0]] + a[1..] == a;
    }
  }

  /** `split` undoes `join` when no piece contains the separator. */
  lemma {:induction false} SplitJoin(xs: seq<string>, c: char)
    requires |xs| >= 1
    requires forall i :: 0 <= i < |xs| ==> c !in xs[i]
    ensures Split(Join(xs, [c]), c) == xs
  {
    SplitJoinLast(xs, c);
    SplitWithout(xs[|xs| - 1], c);
    assert xs[..|xs| - 1] + [xs[|xs| - 1]] == xs;
  }

  /** When only the last piece may contain the separator, `split` returns
      the other pieces and then the split of the last one. */
  lemma {:induction false} SplitJoinLast(xs: seq<string>, c: char)
    requires |xs| >= 1
    requires forall i :: 0 <= i < |xs| - 1 ==> c !in xs[i]
    ensures Split(Join(xs, [c]), c) == xs[..|xs| - 1] + Split(xs[|xs| - 1], c)
  {
    if |xs| > 1 {
      var tail := xs[1..];
      assert forall i :: 0 <= i < |tail| - 1 ==> c !in tail[i] by {
        forall i | 0 <= i < |tail| - 1 ensures c !in tail[i] {
          assert tail[i] == xs[i + 1];
        }
      }
      SplitJoinLast(tail, c);
      SplitJoinCons(xs, c);
    } else {
      assert Join(xs, [c]) == xs[0];
    }
  }

  /** One step of `SplitJoinLast`: the first piece comes off in front. */
  lemma SplitJoinCons(xs: seq<string>, c: char)
    requires |xs| > 1 && c !in xs[0]
    requires Split(Join(xs[1..], [c]), c) == xs[1..][..|xs| - 2] + Split(xs[|xs| - 1], c)
    ensures Split(Join(xs, [c]), c) == xs[..|xs| - 1] + Split(xs[|xs| - 1], c)
  {
    SplitAtFirst(xs[0], c, Join(xs[1..], [c]));
    PrependFront(xs, Split(xs[|xs| - 1], c));
  }

  lemma PrependFront(xs: seq<string>, rest: seq<string>)
    requires |xs| > 1
    ensures [xs[0]] + (xs[1..][..|xs| - 2] + rest) == xs[..|xs| - 1] + rest
  {
    assert [xs[0]] + xs[1..][..|xs| - 2] == xs[..|xs| - 1];
  }

  /** `join` undoes `split`: no text is lost or added by splitting. */
  lemma {:induction false} JoinSplit(s: string, c: char)
    ensures Join(Split(s, c), [c]) == s
  {
    if s != [] {
      JoinSplit(s[1..], c);
      var rest := Split(s[1..], c);
      if s[0] == c {
        assert Split(s, c) == [""] + rest;
        JoinCons("", rest, [c]);
      } else {
        assert Split(s, c) == [[s[0]] + rest[0]] + rest[1..];
        JoinHead(s[0], rest, [c]);
      }
      assert [s[0]] + s[1..] == s;
    }
  }

  /** Joining a piece in front of at least one more. */
  lemma JoinCons(head: string, rest: seq<string>, sep: string)
    requires |rest| >= 1
    ensures Join([head] + rest, sep) == head + sep + Join(rest, sep)
  {
    assert ([head] + rest)[1..] == rest;
  }

  /** A character put in front of the first piece ends up in front of the
      joined text. */
  lemma JoinHead(x: char, rest: seq<string>, sep: string)
    requires |rest| >= 1
    ensures Join([[x] + rest[0]] + rest[1..], sep) == [x] + Join(rest, sep)
  {
    if |rest| > 1 {
      JoinCons([x] + rest[0], rest[1..], sep);
      JoinCons(rest[0], rest[1..], sep);
      assert [rest[0]] + rest[1..] == rest;
    }
  }

  /** A text with no line break in it. */
  predicate SingleLine(x: string) {
    '\n' !in x
  }

  /** A label and a one-line value make one line. */
  lemma LabelledLine(caption: string, value: string)
    requires SingleLine(caption) && SingleLine(value)
    ensures SingleLine(caption + value)
  {
    assert forall k :: 0 <= k < |caption + value| ==> (caption + value)[k] != '\n' by {
      forall k | 0 <= k < |caption + value| ensures (caption + value)[k] != '\n' {
        if k < |caption| { assert (caption + value)[k] == caption[k]; }
        else { assert (caption + value)[k] == value[k - |caption|]; }
      }
    }
  }

  function DigitChar(d: nat): (c: char)
    requires d < 10
    ensures '0' <= c <= '9'
  {
    "0123456789"[d]
  }

  function DigitValue(c: char): nat
    requires '0' <= c <= '9'
  {
    (c as int - '0' as int) as nat
  }

  /** The decimal text of `n`, as a template literal renders a non-negative
      integer. */
  function NatToString(n: nat): (s: string)
    ensures |s| >= 1
    ensures forall i :: 0 <= i < |s| ==> '0' <= s[i] <= '9'
  {
    if n < 10 then [DigitChar(n)] else NatToString(n / 10) + [DigitChar(n % 10)]
  }

  /** The value of a non-empty string of decimal digits. */
  function ParseDecimal(s: string): nat
    requires |s| >= 1
    requires forall i :: 0 <= i < |s| ==> '0' <= s[i] <= '9'
  {
    if |s| == 1 then DigitValue(s[0])
    else ParseDecimal(s[..|s| - 1]) * 10 + DigitValue(s[|s| - 1])
  }

  /** Reading back the rendered decimal text gives the number. */
  lemma {:induction false} ParseNatToString(n: nat)
    ensures ParseDecimal(NatToString(n)) == n
  {
    if n >= 10 {
      ParseNatToString(n / 10);
      var s := NatToString(n);
      assert s[..|s| - 1] == NatToString(n / 10);
    }
  }

  /** The rendering has no leading zero, so distinct numbers render
      differently. */
  lemma NatToStringInjective(m: nat, n: nat)
    requires NatToString(m) == NatToString(n)
    ensures m == n
  {
    ParseNatToString(m);
    ParseNatToString(n);
  }
}
