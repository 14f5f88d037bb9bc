/** Strings as the ledgers use them: white space, byte order, splitting, decimal digits. */
module Text {

  datatype Option<+T> = None | Some(value: T) {
    predicate IsFailure() { None? }

    function PropagateFailure<U>(): Option<U>
      requires None?
    {
      None
    }

    function Extract(): T
      requires Some?
    {
      value
    }
  }

  // ---------- White space ----------

  /** The Unicode `White_Space` characters, which `trim` removes. */
  predicate IsWhite(c: char) {
    || '\U{9}' <= c <= '\U{d}' || c == ' ' || c == '\U{85}' || c == '\U{a0}' || c == '\U{1680}'
    || '\U{2000}' <= c <= '\U{200a}' || c == '\U{2028}' || c == '\U{2029}' || c == '\U{202f}'
    || c == '\U{205f}' || c == '\U{3000}'
  }

  predicate Blank(s: string) { forall i :: 0 <= i < |s| ==> IsWhite(s[i]) }

  function TrimStart(s: string): (r: string) {
    if s != [] && IsWhite(s[0]) then TrimStart(s[1..]) else s
  }

  function TrimEnd(s: string): (r: string) {
    if s != [] && IsWhite(s[|s| - 1]) then TrimEnd(s[..|s| - 1]) else s
  }

  function Trim(s: string): (r: string) { TrimEnd(TrimStart(s)) }

  lemma {:induction false} TrimStartIs(s: string) returns (k: nat)
    ensures k <= |s| && TrimStart(s) == s[k..] && Blank(s[..k])
    ensures k < |s| ==> !IsWhite(s[k])
  {
    hide IsWhite;
    if s != [] && IsWhite(s[0]) {
      var tail := s[1..];
      var j := TrimStartIs(tail);
      k := j + 1;
      assert tail[j..] == s[k..] && (j < |tail| ==> tail[j] == s[k]);
      forall i | 0 <= i < k
        ensures IsWhite(s[..k][i])
      {
        if i > 0 { assert s[i] == tail[..j][i - 1]; }
      }
    } else {
      k := 0;
    }
  }

  lemma {:induction false} TrimEndIs(s: string) returns (k: nat)
    ensures k <= |s| && TrimEnd(s) == s[..k] && Blank(s[k..])
    ensures k > 0 ==> !IsWhite(s[k - 1])
  {
    hide IsWhite;
    if s != [] && IsWhite(s[|s| - 1]) {
      var n := |s| - 1;
      var init := s[..n];
      k := TrimEndIs(init);
      assert init[..k] == s[..k] && (k > 0 ==> init[k - 1] == s[k - 1]);
      forall i | 0 <= i < |s| - k
        ensures IsWhite(s[k..][i])
      {
        assert s[k..][i] == s[k + i];
        if k + i < n { assert s[k + i] == init[k..][i]; }
      }
    } else {
      k := |s|;
    }
  }

  /** Trimming takes white space off both ends and nothing else. */
  lemma TrimIs(s: string) returns (l: string, r: string)
    ensures s == l + Trim(s) + r && Blank(l) && Blank(r)
    ensures Trim(s) != [] ==> !IsWhite(Trim(s)[0]) && !IsWhite(Trim(s)[|Trim(s)| - 1])
  {
    hide IsWhite;
    var i := TrimStartIs(s);
    var t := s[i..];
    var j := TrimEndIs(t);
    l, r := s[..i], t[j..];
    assert t == t[..j] + t[j..];
  }

  /** Trimming leaves nothing exactly when there was nothing but white space. */
  lemma TrimEmptyIffBlank(s: string)
    ensures Trim(s) == [] <==> Blank(s)
  {
    var i := TrimStartIs(s);
    var t := s[i..];
    var j := TrimEndIs(t);
    if i < |s| {
      assert t[0] == s[i];
      assert t[..j] + t[j..] == t;
    } else {
      assert s[..i] == s;
    }
  }

  lemma {:induction false} TrimStartSkips(l: string, s: string)
    requires Blank(l)
    ensures TrimStart(l + s) == TrimStart(s)
  {
    if l == [] {
      assert l + s == s;
    } else {
      assert (l + s)[1..] == l[1..] + s;
      TrimStartSkips(l[1..], s);
    }
  }

  lemma {:induction false} TrimEndSkips(s: string, r: string)
    requires Blank(r)
    ensures TrimEnd(s + r) == TrimEnd(s)
  {
    if r == [] {
      assert s + r == s;
    } else {
      assert (s + r)[..|s + r| - 1] == s + r[..|r| - 1];
      TrimEndSkips(s, r[..|r| - 1]);
    }
  }

  lemma {:induction false} TrimStartKeepsTail(s: string, r: string)
    requires !Blank(s)
    ensures TrimStart(s + r) == TrimStart(s) + r
  {
    if IsWhite(s[0]) {
      assert (s + r)[1..] == s[1..] + r;
      assert s == [s[0]] + s[1..];
      TrimStartKeepsTail(s[1..], r);
    }
  }

  /** Padding is invisible after trimming. */
  lemma TrimIgnoresPadding(l: string, s: string, r: string)
    requires Blank(l) && Blank(r)
    ensures Trim(l + s + r) == Trim(s)
  {
    if Blank(s) {
      TrimEmptyIffBlank(s);
      TrimEmptyIffBlank(l + s + r);
    } else {
      assert l + s + r == l + (s + r);
      TrimStartSkips(l, s + r);
      TrimStartKeepsTail(s, r);
      TrimEndSkips(TrimStart(s), r);
    }
  }

  // ---------- Order ----------

  /** Byte order of strings, which on UTF-8 is code-point order. */
  predicate Less(a: string, b: string) {
    b != [] && (a == [] || a[0] < b[0] || (a[0] == b[0] && Less(a[1..], b[1..])))
  }

  lemma {:induction false} LessIsTotal(a: string, b: string)
    ensures Less(a, b) || a == b || Less(b, a)
    ensures !(Less(a, b) && Less(b, a)) && !Less(a, a)
  {
    if a != [] && b != [] {
      LessIsTotal(a[1..], b[1..]);
      assert a == [a[0]] + a[1..] && b == [b[0]] + b[1..];
    }
    if a != [] {
      LessIsTotal(a[1..], a[1..]);
    }
  }

  lemma {:induction false} LessIsTransitive(a: string, b: string, c: string)
    requires Less(a, b) && Less(b, c)
    ensures Less(a, c)
  {
    if a != [] && a[0] == b[0] == c[0] {
      LessIsTransitive(a[1..], b[1..], c[1..]);
    }
  }

  /** Fields of equal width compare one after the other. */
  lemma {:induction false} LessByField(a: string, b: string, c: string, d: string)
    requires |a| == |c|
    ensures Less(a + b, c + d) <==> Less(a, c) || (a == c && Less(b, d))
  {
    if a == [] {
      assert a + b == b && c + d == d;
    } else {
      LessByField(a[1..], b, c[1..], d);
      assert (a + b)[1..] == a[1..] + b && (c + d)[1..] == c[1..] + d;
      assert a == [a[0]] + a[1..] && c == [c[0]] + c[1..];
    }
  }

  // ---------- Sorted lists of strings ----------

  ghost predicate Sorted(v: seq<string>) { forall i, j :: 0 <= i < j < |v| ==> !Less(v[j], v[i]) }

  ghost predicate StrictlySorted(v: seq<string>) { forall i, j :: 0 <= i < j < |v| ==> Less(v[i], v[j]) }

  lemma SameElementsSameEmptiness(a: seq<string>, b: seq<string>)
    requires forall x :: x in a <==> x in b
    ensures a == [] <==> b == []
  {
    if a != [] { assert a[0] in b; }
    if b != [] { assert b[0] in a; }
  }

  /** A strictly sorted list is determined by its elements. */
  lemma {:induction false} SortedSetIsUnique(a: seq<string>, b: seq<string>)
    requires StrictlySorted(a) && StrictlySorted(b)
    requires forall x :: x in a <==> x in b
    ensures a == b
  {
    hide Less;
    SameElementsSameEmptiness(a, b);
    if a != [] {
      assert a[0] in a && a[0] in b;
      var i :| 0 <= i < |b| && b[i] == a[0];
      assert b[0] in b;
      var j :| 0 <= j < |a| && a[j] == b[0];
      LessIsTotal(a[0], b[0]);
      assert a[0] == b[0];
      forall x
        ensures x in a[1..] <==> x in b[1..]
      {
        LessIsTotal(a[0], a[0]);
        assert x in a <==> x == a[0] || x in a[1..];
        assert x in b <==> x == b[0] || x in b[1..];
      }
      SortedSetIsUnique(a[1..], b[1..]);
      assert a == [a[0]] + a[1..] && b == [b[0]] + b[1..];
    }
  }

  // ---------- Splitting ----------

  function Split(s: string, sep: char): (parts: seq<string>)
    ensures |parts| >= 1
  {
    if s == [] then [[]]
    else if s[0] == sep then [[]] + Split(s[1..], sep)
    else
      var rest := Split(s[1..], sep);
      [[s[0]] + rest[0]] + rest[1..]
  }

  lemma {:induction false} SplitOne(a: string, sep: char)
    requires sep !in a
    ensures Split(a, sep) == [a]
  {
    if a != [] {
      SplitOne(a[1..], sep);
      assert a == [a[0]] + a[1..];
    }
  }

  lemma {:induction false} SplitFirst(a: string, b: string, sep: char)
    requires sep !in a
    ensures Split(a + [sep] + b, sep) == [a] + Split(b, sep)
  {
    var s := a + [sep] + b;
    if a == [] {
      assert s[1..] == b;
    } else {
      assert s[1..] == a[1..] + [sep] + b;
      SplitFirst(a[1..], b, sep);
      assert a == [a[0]] + a[1..];
    }
  }

  /** Two strings cut at their first separator agree on both sides of it. */
  lemma CutIsUnique(a: string, b: string, c: string, d: string, sep: char)
    requires sep !in a && sep !in c
    requires a + [sep] + b == c + [sep] + d
    ensures a == c && b == d
  {
    var s, t := a + [sep] + b, c + [sep] + d;
    assert s[|a|] == sep && t[|c|] == sep;
    assert s[..|a|] == a && t[..|a|] == c;
    assert s[|a| + 1..] == b && t[|a| + 1..] == d;
  }

  // ---------- Decimal numbers ----------

  predicate IsDigit(c: char) { '0' <= c <= '9' }

  predicate AllDigits(s: string) { forall i :: 0 <= i < |s| ==> IsDigit(s[i]) }

  function Digit(n: int): (c: char)
    requires 0 <= n < 10
  {
    (48 + n) as char
  }

  /** `n` in decimal, padded with zeros to at least `w` characters. */
  function Pad(n: nat, w: nat): (s: string)
    decreases n, w
  {
    if n < 10 && w <= 1 then [Digit(n)] else Pad(n / 10, if w == 0 then 0 else w - 1) + [Digit(n % 10)]
  }

  function Value(s: string): (n: nat)
    requires AllDigits(s)
  {
    if s == [] then 0 else Value(s[..|s| - 1]) * 10 + (s[|s| - 1] as int - 48)
  }

  function Pow10(w: nat): (p: nat)
    ensures p >= 1
  {
    if w == 0 then 1 else 10 * Pow10(w - 1)
  }

  /** Reading a padded number gives the number back. */
  lemma {:induction false} PadRoundTrip(n: nat, w: nat)
    ensures AllDigits(Pad(n, w)) && Value(Pad(n, w)) == n
    ensures |Pad(n, w)| >= 1 && |Pad(n, w)| >= w
    decreases n, w
  {
    if n < 10 && w <= 1 {
      assert Pad(n, w)[..0] == [];
    } else {
      var w' := if w == 0 then 0 else w - 1;
      PadRoundTrip(n / 10, w');
      var p := Pad(n / 10, w');
      assert Pad(n, w)[..|p|] == p;
    }
  }

  /** Printing the number a string of digits stands for gives the string back. */
  lemma {:induction false} PadOfValue(s: string)
    requires AllDigits(s) && s != []
    ensures Pad(Value(s), |s|) == s && Value(s) < Pow10(|s|)
  {
    var n := |s| - 1;
    var init, c := s[..n], s[n] as int - 48;
    assert s == init + [Digit(c)];
    assert Value(s) == Value(init) * 10 + c;
    assert Pow10(1) == 10;
    if n == 0 {
      assert init == [] && Value(s) == c;
    } else {
      PadOfValue(init);
      assert Value(s) / 10 == Value(init) && Value(s) % 10 == c;
    }
  }

  lemma {:induction false} PadWidth(n: nat, w: nat)
    requires w >= 1 && n < Pow10(w)
    ensures |Pad(n, w)| == w
  {
    if n < 10 && w <= 1 {
    } else {
      assert Pow10(1) == 10 * Pow10(0);
      PadWidth(n / 10, w - 1);
    }
  }

  lemma {:induction false} PadIsLong(n: nat, w: nat)
    requires n >= Pow10(w)
    ensures |Pad(n, w)| > w
    decreases w
  {
    if w > 0 {
      PadIsLong(n / 10, w - 1);
    } else {
      PadRoundTrip(n, w);
    }
  }

  /** On numbers that fit the width, string order is numeric order. */
  lemma {:induction false} PadPreservesOrder(m: nat, n: nat, w: nat)
    requires w >= 1 && m < Pow10(w) && n < Pow10(w)
    ensures Less(Pad(m, w), Pad(n, w)) <==> m < n
  {
    hide Less;
    if w == 1 {
      assert Pow10(1) == 10 * Pow10(0);
      assert Pad(m, 1) == [Digit(m)] && Pad(n, 1) == [Digit(n)];
      LessOneChar(Digit(m), Digit(n));
    } else {
      var a, b := Pad(m / 10, w - 1), Pad(n / 10, w - 1);
      PadPreservesOrder(m / 10, n / 10, w - 1);
      PadWidth(m / 10, w - 1);
      PadWidth(n / 10, w - 1);
      PadIsInjective(m / 10, n / 10, w - 1);
      assert Pad(m, w) == a + [Digit(m % 10)] && Pad(n, w) == b + [Digit(n % 10)];
      LessByField(a, [Digit(m % 10)], b, [Digit(n % 10)]);
      LessOneChar(Digit(m % 10), Digit(n % 10));
    }
  }

  lemma LessOneChar(c: char, d: char)
    ensures Less([c], [d]) <==> c < d
  {
  }

  lemma PadIsInjective(m: nat, n: nat, w: nat)
    ensures Pad(m, w) == Pad(n, w) ==> m == n
  {
    PadRoundTrip(m, w);
    PadRoundTrip(n, w);
  }
}
