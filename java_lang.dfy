/** The behaviour of the few java.lang operations the panels rely on:
    32-bit `int` arithmetic, the `%` operator, `String.trim`,
    `Integer.parseInt`, `Integer.toString`, `String.toLowerCase` and
    `String.compareTo`. */
module JavaLang {

  datatype Option<+T> = None | Some(value: T)

  const INT_MIN: int := -0x8000_0000
  const INT_MAX: int := 0x7fff_ffff
  const TWO_32: int := 0x1_0000_0000

  /** Java's `int`. */
  type int32 = x: int | INT_MIN <= x <= INT_MAX

  function Abs(x: int): nat { if x < 0 then -x else x }

  /** Two's-complement wrap-around of an `int` result (`a * b`, `c + 1`). */
  function Wrap32(x: int): (r: int32)
    ensures INT_MIN <= x <= INT_MAX ==> r == x
  {
    (x - INT_MIN) % TWO_32 + INT_MIN
  }

  /** The wrapped value differs from the exact one by a multiple of 2^32. */
  lemma Wrap32Congruent(x: int)
    ensures (x - Wrap32(x)) % TWO_32 == 0
  {
    var m := (x - INT_MIN) % TWO_32;
    assert x - (m + INT_MIN) == TWO_32 * ((x - INT_MIN) / TWO_32);
  }

  /** Java's `a % b`: division truncates toward zero, so the remainder takes
      the sign of the dividend (Dafny's own `%` is Euclidean). */
  function Rem(a: int, b: int): int
    requires b != 0
  {
    var m := Abs(a) % Abs(b);
    if a < 0 then -m else m
  }

  /** The remainder is smaller than the divisor in magnitude, takes the sign
      of the dividend, agrees with `%` on non-negative operands, and is zero
      exactly when the divisor divides the dividend. */
  lemma RemBounds(a: int, b: int)
    requires b != 0
    ensures 0 <= a ==> 0 <= Rem(a, b) < Abs(b)
    ensures a < 0 ==> -(Abs(b) as int) < Rem(a, b) <= 0
    ensures 0 <= a && 0 < b ==> Rem(a, b) == a % b
    ensures Rem(a, b) == 0 <==> Abs(a) % Abs(b) == 0
  {
  }

  // ---------------------------------------------------------------- trim

  /** Drops the leading characters `String.trim` treats as blank (code <= U+0020). */
  function TrimStart(s: string): string
  {
    if |s| > 0 && s[0] <= ' ' then TrimStart(s[1..]) else s
  }

  /** Drops the trailing blank characters. */
  function TrimEnd(s: string): string
  {
    if |s| > 0 && s[|s| - 1] <= ' ' then TrimEnd(s[..|s| - 1]) else s
  }

  /** `TrimStart` keeps a suffix that does not start blank, and everything it
      drops is blank. */
  lemma {:induction false} TrimStartShape(s: string)
    ensures |TrimStart(s)| <= |s| && TrimStart(s) == s[|s| - |TrimStart(s)|..]
    ensures TrimStart(s) == [] || TrimStart(s)[0] > ' '
    ensures Blank(s[..|s| - |TrimStart(s)|])
  {
    if |s| > 0 && s[0] <= ' ' {
      TrimStartShape(s[1..]);
      var n := |s| - |TrimStart(s)|;
      assert s[1..][..n - 1] == s[1..n];
      assert forall k :: 1 <= k < n ==> s[k] == s[1..n][k - 1];
    }
  }

  /** `TrimEnd` keeps a prefix that does not end blank, and everything it
      drops is blank. */
  lemma {:induction false} TrimEndShape(s: string)
    ensures |TrimEnd(s)| <= |s| && TrimEnd(s) == s[..|TrimEnd(s)|]
    ensures TrimEnd(s) == [] || TrimEnd(s)[|TrimEnd(s)| - 1] > ' '
    ensures Blank(s[|TrimEnd(s)|..])
  {
    if |s| > 0 && s[|s| - 1] <= ' ' {
      var u := s[..|s| - 1];
      TrimEndShape(u);
      var m := |TrimEnd(s)|;
      assert u[m..] + [s[|s| - 1]] == s[m..];
    }
  }

  /** `String.trim()`. */
  function Trim(s: string): string
  {
    TrimEnd(TrimStart(s))
  }

  predicate Blank(s: string)
  {
    forall k :: 0 <= k < |s| ==> s[k] <= ' '
  }

  /** Neither end of a trimmed string is blank. */
  predicate Trimmed(s: string)
  {
    s == [] || (s[0] > ' ' && s[|s| - 1] > ' ')
  }

  lemma TrimStartOfNonBlankFirst(s: string)
    requires s == [] || s[0] > ' '
    ensures TrimStart(s) == s
  {
  }

  lemma TrimEndOfNonBlankLast(s: string)
    requires s == [] || s[|s| - 1] > ' '
    ensures TrimEnd(s) == s
  {
  }

  /** The result of `trim` is itself trimmed and is what remains of the input
      once blank runs at both ends are cut away. */
  lemma TrimCharacterised(s: string)
    ensures Trimmed(Trim(s))
    ensures exists i, j :: 0 <= i <= j <= |s| && Trim(s) == s[i..j] && Blank(s[..i]) && Blank(s[j..])
  {
    var u := TrimStart(s);
    var t := TrimEnd(u);
    TrimStartShape(s);
    TrimEndShape(u);
    var i := |s| - |u|;
    var j := i + |t|;
    assert t == s[i..j];
    assert s[j..] == u[|t|..];
  }

  /** A visible character survives `trim`, at its place less the blanks cut
      from the front. */
  lemma TrimKeepsVisible(s: string, k: nat)
    requires k < |s| && s[k] > ' '
    ensures var off := |s| - |TrimStart(s)|;
      off <= k < off + |Trim(s)| && Trim(s)[k - off] == s[k]
  {
    var u := TrimStart(s);
    TrimStartShape(s);
    TrimEndShape(u);
    var off := |s| - |u|;
    assert u[k - off] == s[k];
  }

  /** `trim` applied twice is `trim` applied once: the fields are trimmed
      before `parseIntOrDefault`, which trims again, to no effect. */
  lemma TrimIdempotent(s: string)
    ensures Trim(Trim(s)) == Trim(s)
  {
    TrimCharacterised(s);
    var t := Trim(s);
    TrimStartOfNonBlankFirst(t);
    TrimEndOfNonBlankLast(t);
  }

  lemma {:induction false} TrimStartOfBlankPrefix(pre: string, rest: string)
    requires Blank(pre)
    requires rest == [] || rest[0] > ' '
    ensures TrimStart(pre + rest) == rest
  {
    if pre == [] {
      assert pre + rest == rest;
      TrimStartOfNonBlankFirst(rest);
    } else {
      assert (pre + rest)[1..] == pre[1..] + rest;
      TrimStartOfBlankPrefix(pre[1..], rest);
    }
  }

  lemma {:induction false} TrimEndOfBlankSuffix(rest: string, post: string)
    requires Blank(post)
    requires rest == [] || rest[|rest| - 1] > ' '
    ensures TrimEnd(rest + post) == rest
  {
    if post == [] {
      assert rest + post == rest;
      TrimEndOfNonBlankLast(rest);
    } else {
      assert (rest + post)[..|rest + post| - 1] == rest + post[..|post| - 1];
      TrimEndOfBlankSuffix(rest, post[..|post| - 1]);
    }
  }

  /** Blank padding on either side of a trimmed core is exactly what `trim` removes. */
  lemma TrimPadded(pre: string, core: string, post: string)
    requires Blank(pre) && Blank(post) && Trimmed(core)
    ensures Trim(pre + core + post) == core
  {
    assert pre + core + post == pre + (core + post);
    if core == [] {
      assert pre + core + post == pre + post;
      if post == [] {
        assert pre + post == pre + [];
        TrimStartOfBlankPrefix(pre, []);
        TrimEndOfBlankSuffix([], []);
      } else {
        // all of it is blank
        assert Blank(pre + post);
        BlankTrimsToEmpty(pre + post);
      }
    } else {
      TrimStartOfBlankPrefix(pre, core + post);
      TrimEndOfBlankSuffix(core, post);
    }
  }

  lemma {:induction false} BlankTrimsToEmpty(s: string)
    requires Blank(s)
    ensures Trim(s) == []
  {
    assert s == s + [];
    TrimStartOfBlankPrefix(s, []);
  }

  // ------------------------------------------------------- decimal digits

  predicate IsDigit(c: char) { '0' <= c <= '9' }

  predicate AllDigits(s: string) { forall k :: 0 <= k < |s| ==> IsDigit(s[k]) }

  function DigitValue(c: char): nat
    requires IsDigit(c)
  {
    c as int - '0' as int
  }

  function DigitChar(d: nat): (c: char)
    requires d < 10
    ensures IsDigit(c) && DigitValue(c) == d
  {
    ('0' as int + d) as char
  }

  /** The value of a string of decimal digits, most significant first. */
  function DigitsValue(s: string): nat
    requires AllDigits(s)
  {
    if s == [] then 0 else 10 * DigitsValue(s[..|s| - 1]) + DigitValue(s[|s| - 1])
  }

  /** The decimal digits of a natural number, without leading zeros. */
  function NatDigits(n: nat): (r: string)
    ensures |r| >= 1 && AllDigits(r)
    ensures n < 10 <==> |r| == 1
    ensures 10 <= n < 100 <==> |r| == 2
  {
    if n < 10 then [DigitChar(n)] else NatDigits(n / 10) + [DigitChar(n % 10)]
  }

  lemma {:induction false} NatDigitsValue(n: nat)
    ensures DigitsValue(NatDigits(n)) == n
  {
    if n >= 10 {
      var r := NatDigits(n);
      assert r[..|r| - 1] == NatDigits(n / 10);
      NatDigitsValue(n / 10);
    }
  }

  /** `Integer.toString(n)`. */
  function ToDecimal(n: int): string
  {
    if n < 0 then "-" + NatDigits(-n) else NatDigits(n)
  }

  /** `Integer.parseInt(s)`: an optional sign then at least one decimal digit,
      whose value must fit in an `int`; anything else raises
      NumberFormatException, modelled as None. */
  function ParseInt(s: string): Option<int32>
  {
    if |s| == 0 then None
    else
      var body := if s[0] == '-' || s[0] == '+' then s[1..] else s;
      if |body| == 0 || !AllDigits(body) then None
      else
        var v: int := if s[0] == '-' then -(DigitsValue(body) as int) else DigitsValue(body);
        if INT_MIN <= v <= INT_MAX then Some(v) else None
  }

  /** `parseInt` reads back what `toString` writes, for every `int`. */
  lemma ParseIntToDecimal(n: int32)
    ensures ParseInt(ToDecimal(n)) == Some(n)
  {
    var s := ToDecimal(n);
    if n < 0 {
      assert s[1..] == NatDigits(-(n as int));
      NatDigitsValue(-(n as int));
    } else {
      NatDigitsValue(n);
    }
  }

  /** A character other than a digit, past an optional leading sign, makes
      `parseInt` fail; so does the empty string and a lone sign. */
  lemma ParseIntRejectsNonDigit(s: string, k: nat)
    requires k < |s| && !IsDigit(s[k])
    requires k > 0 || (s[0] != '-' && s[0] != '+') || |s| == 1
    ensures ParseInt(s) == None
  {
    if k > 0 && (s[0] == '-' || s[0] == '+') {
      assert s[1..][k - 1] == s[k];
    }
  }

  /** A decimal literal whose value lies outside the `int` range is rejected. */
  lemma ParseIntRejectsOutOfRange(digits: string)
    requires |digits| > 0 && AllDigits(digits)
    requires DigitsValue(digits) > INT_MAX
    ensures ParseInt(digits) == None
    ensures ParseInt("+" + digits) == None
  {
    assert ("+" + digits)[1..] == digits;
  }

  // --------------------------------------------------------- comparisons

  /** `String.toLowerCase()` on the ASCII letters. */
  function LowerAscii(s: string): string
  {
    if s == [] then []
    else
      var c := s[0];
      [if 'A' <= c <= 'Z' then (c as int + 32) as char else c] + LowerAscii(s[1..])
  }

  /** Each ASCII capital becomes its small letter; other characters stay. */
  lemma {:induction false} LowerAsciiChars(s: string)
    ensures |LowerAscii(s)| == |s|
    ensures forall k :: 0 <= k < |s| ==>
      LowerAscii(s)[k] == (if 'A' <= s[k] <= 'Z' then (s[k] as int + 32) as char else s[k])
  {
    if s != [] {
      LowerAsciiChars(s[1..]);
    }
  }

  /** `a.compareTo(b) <= 0`: lexicographic by character, a proper prefix first. */
  predicate LexLe(a: string, b: string)
  {
    a == [] || (b != [] && (a[0] < b[0] || (a[0] == b[0] && LexLe(a[1..], b[1..]))))
  }

  lemma {:induction false} LexLeTotal(a: string, b: string)
    ensures LexLe(a, b) || LexLe(b, a)
  {
    if a != [] && b != [] && a[0] == b[0] {
      LexLeTotal(a[1..], b[1..]);
    }
  }

  lemma {:induction false} LexLeAntisymmetric(a: string, b: string)
    requires LexLe(a, b) && LexLe(b, a)
    ensures a == b
  {
    if a != [] && b != [] {
      LexLeAntisymmetric(a[1..], b[1..]);
      assert a == [a[0]] + a[1..];
      assert b == [b[0]] + b[1..];
    }
  }

  lemma {:induction false} LexLeTransitive(a: string, b: string, c: string)
    requires LexLe(a, b) && LexLe(b, c)
    ensures LexLe(a, c)
  {
    if a != [] && b != [] && c != [] && a[0] == b[0] && b[0] == c[0] {
      LexLeTransitive(a[1..], b[1..], c[1..]);
    }
  }

  // --------------------------------------------------------------- lists

  /** `List.remove(Object)`: drops the first element equal to `x`, if any. */
  function RemoveFirst<T(==)>(s: seq<T>, x: T): (r: seq<T>)
    ensures x !in s ==> r == s
    ensures x in s ==> |r| == |s| - 1 && multiset(r) == multiset(s) - multiset{x}
  {
    if s == [] then []
    else
      assert s == [s[0]] + s[1..];
      if s[0] == x then s[1..] else [s[0]] + RemoveFirst(s[1..], x)
  }

  /** What `RemoveFirst` keeps: everything before the first `x`, and
      everything after it. */
  lemma {:induction false} RemoveFirstSplits<T>(s: seq<T>, x: T, i: nat)
    requires i < |s| && s[i] == x && x !in s[..i]
    ensures RemoveFirst(s, x) == s[..i] + s[i + 1..]
  {
    if i > 0 {
      assert s[1..][..i - 1] == s[..i][1..];
      RemoveFirstSplits(s[1..], x, i - 1);
      assert s[1..][i..] == s[i + 1..];
    }
  }

  /** `List.indexOf` of an element that is present: the first position
      holding it. */
  function IndexOf<T(==)>(s: seq<T>, x: T): (i: nat)
    requires x in s
    ensures i < |s| && s[i] == x && x !in s[..i]
  {
    if s[0] == x then 0
    else
      var j := IndexOf(s[1..], x);
      assert s[..j + 1] == [s[0]] + s[1..][..j];
      j + 1
  }

  /** Dropping one position keeps every element that differs from the one
      dropped. */
  lemma InWithout<T>(s: seq<T>, i: nat, y: T)
    requires i < |s| && y in s && y != s[i]
    ensures y in s[..i] + s[i + 1..]
  {
    var a :| 0 <= a < |s| && s[a] == y;
    assert (s[..i] + s[i + 1..])[if a < i then a else a - 1] == y;
  }

  /** `removeElement` takes out the row `indexOf` finds. */
  lemma RemoveFirstAtIndexOf<T>(s: seq<T>, x: T)
    requires x in s
    ensures RemoveFirst(s, x) == s[..IndexOf(s, x)] + s[IndexOf(s, x) + 1..]
  {
    RemoveFirstSplits(s, x, IndexOf(s, x));
  }

  /** No occurrence comes before the one `IndexOf` finds. */
  lemma IndexOfAtMost<T>(s: seq<T>, x: T, j: nat)
    requires j < |s| && s[j] == x
    ensures IndexOf(s, x) <= j
  {
  }
}
