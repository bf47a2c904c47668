// String operations the source takes from its standard libraries, on `seq<char>`.
module Text {

  predicate HasPrefix(s: string, p: string) {
    p <= s
  }

  predicate HasSuffix(s: string, x: string) {
    |x| <= |s| && s[|s| - |x|..] == x
  }

  function TrimPrefix(s: string, p: string): string {
    if HasPrefix(s, p) then s[|p|..] else s
  }

  function TrimSuffix(s: string, x: string): string {
    if HasSuffix(s, x) then s[..|s| - |x|] else s
  }

  // Prepending a text that shares no character with the suffix neither adds nor hides the suffix.
  lemma SuffixUnderPrefix(p: string, s: string, x: string)
    requires p != [] && p[|p| - 1] !in x
    ensures HasSuffix(p + s, x) <==> HasSuffix(s, x)
  {
    var w := p + s;
    if |x| <= |s| {
      assert w[|w| - |x|..] == s[|s| - |x|..];
    } else if |x| <= |w| {
      var k := |p| - 1 - (|w| - |x|);
      assert w[|w| - |x|..][k] == p[|p| - 1] && x[k] in x;
    }
  }

  // strings.Join with a one-character separator.
  function Join(parts: seq<string>, sep: char): string {
    if parts == [] then ""
    else if |parts| == 1 then parts[0]
    else parts[0] + [sep] + Join(parts[1..], sep)
  }

  predicate Free(parts: seq<string>, sep: char) {
    forall p | p in parts :: sep !in p
  }

  function FirstIndex(s: string, sep: char): nat {
    if s == [] || s[0] == sep then 0 else 1 + FirstIndex(s[1..], sep)
  }

  lemma {:induction false} FirstIndexOfCut(a: string, x: string, sep: char)
    requires sep !in a
    ensures FirstIndex(a + [sep] + x, sep) == |a|
  {
    if a != [] {
      assert (a + [sep] + x)[1..] == a[1..] + [sep] + x;
      FirstIndexOfCut(a[1..], x, sep);
    }
  }

  // A text cut at its first separator has only one reading.
  lemma FirstCutUnique(a: string, x: string, b: string, y: string, sep: char)
    requires sep !in a && sep !in b
    requires a + [sep] + x == b + [sep] + y
    ensures a == b && x == y
  {
    FirstIndexOfCut(a, x, sep);
    FirstIndexOfCut(b, y, sep);
    var w := a + [sep] + x;
    assert w[..|a|] == a && w[..|b|] == b;
    assert w[|a| + 1..] == x && w[|b| + 1..] == y;
  }

  lemma JoinContainsSeparator(parts: seq<string>, sep: char)
    requires Free(parts, sep)
    ensures sep in Join(parts, sep) <==> |parts| > 1
  {
    if |parts| > 1 {
      assert Join(parts, sep)[|parts[0]|] == sep;
    }
  }

  lemma {:induction false} JoinInjective(a: seq<string>, b: seq<string>, sep: char)
    requires a != [] && b != [] && Free(a, sep) && Free(b, sep)
    requires Join(a, sep) == Join(b, sep)
    ensures a == b
  {
    JoinContainsSeparator(a, sep);
    JoinContainsSeparator(b, sep);
    if |a| > 1 {
      FirstCutUnique(a[0], Join(a[1..], sep), b[0], Join(b[1..], sep), sep);
      JoinInjective(a[1..], b[1..], sep);
      assert a == [a[0]] + a[1..] && b == [b[0]] + b[1..];
    }
  }

  // The white space strings.TrimSpace removes.
  predicate IsSpace(c: char) {
    c in {'\t', '\n', '\U{000B}', '\U{000C}', '\r', ' ', '\U{0085}', '\U{00A0}', '\U{1680}',
          '\U{2028}', '\U{2029}', '\U{202F}', '\U{205F}', '\U{3000}'}
    || '\U{2000}' <= c <= '\U{200A}'
  }

  function TrimLeft(s: string): string {
    if s != [] && IsSpace(s[0]) then TrimLeft(s[1..]) else s
  }

  function TrimRight(s: string): string {
    if s != [] && IsSpace(s[|s| - 1]) then TrimRight(s[..|s| - 1]) else s
  }

  function TrimSpace(s: string): string {
    TrimRight(TrimLeft(s))
  }

  lemma {:induction false} TrimLeftStops(s: string)
    ensures TrimLeft(s) == "" || !IsSpace(TrimLeft(s)[0])
  {
    if s != [] && IsSpace(s[0]) {
      TrimLeftStops(s[1..]);
    }
  }

  lemma {:induction false} TrimRightKeepsFirst(s: string)
    requires s != "" && !IsSpace(s[0])
    ensures TrimRight(s) != "" && TrimRight(s)[0] == s[0]
  {
    if IsSpace(s[|s| - 1]) {
      TrimRightKeepsFirst(s[..|s| - 1]);
    }
  }

  // What trimming leaves is not blank.
  lemma TrimmedIsNotBlank(s: string)
    requires TrimSpace(s) != ""
    ensures TrimSpace(TrimSpace(s)) != ""
  {
    TrimLeftStops(s);
    TrimRightKeepsFirst(TrimLeft(s));
    TrimRightKeepsFirst(TrimSpace(s));
  }

  // ---- decimal numerals ----

  function Digit(d: nat): char
    requires d < 10
  {
    "0123456789"[d]
  }

  function Natural(n: nat): string {
    if n < 10 then [Digit(n)] else Natural(n / 10) + [Digit(n % 10)]
  }

  function Decimal(n: int): string {
    if n < 0 then "-" + Natural(-n) else Natural(n)
  }

  lemma DigitInjective(a: nat, b: nat)
    requires a < 10 && b < 10 && Digit(a) == Digit(b)
    ensures a == b
  {
  }

  lemma {:induction false} NaturalInjective(a: nat, b: nat)
    requires Natural(a) == Natural(b)
    ensures a == b
  {
    NaturalNonEmpty(a);
    NaturalNonEmpty(b);
    var x, y := Natural(a), Natural(b);
    assert x[|x| - 1] == Digit(a % 10) && y[|y| - 1] == Digit(b % 10);
    DigitInjective(a % 10, b % 10);
    if a >= 10 && b >= 10 {
      assert x[..|x| - 1] == Natural(a / 10) && y[..|y| - 1] == Natural(b / 10);
      NaturalInjective(a / 10, b / 10);
    }
  }

  lemma {:induction false} NaturalNonEmpty(a: nat)
    ensures |Natural(a)| >= 1 && (a >= 10 ==> |Natural(a)| >= 2)
    ensures forall c | c in Natural(a) :: '0' <= c <= '9'
  {
    if a >= 10 {
      NaturalNonEmpty(a / 10);
    }
  }

  lemma SignIsFirst(a: int)
    ensures Decimal(a) != "" && (a < 0 <==> Decimal(a)[0] == '-')
  {
    NaturalNonEmpty(if a < 0 then -a else a);
    if a >= 0 {
      assert Natural(a)[0] in Natural(a);
    }
  }

  lemma DecimalInjective(a: int, b: int)
    requires Decimal(a) == Decimal(b)
    ensures a == b
  {
    SignIsFirst(a);
    SignIsFirst(b);
    if a < 0 {
      assert Decimal(a)[1..] == Natural(-a) && Decimal(b)[1..] == Natural(-b);
      NaturalInjective(-a, -b);
    } else {
      NaturalInjective(a, b);
    }
  }
}
