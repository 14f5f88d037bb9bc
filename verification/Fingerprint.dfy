/** Identity of a family in the rejections ledger: canonical spans, canonical contract, fingerprint. */
module Fingerprint {
  import opened Text

  // ---------- Canonical spans ----------

  /** The identities a span list contributes: every span trimmed, blank ones gone. */
  ghost predicate Contributes(spans: seq<string>, x: string) {
    exists i :: 0 <= i < |spans| && Trim(spans[i]) == x && x != []
  }

  function Insert(x: string, v: seq<string>): (r: seq<string>)
  {
    if v == [] || Less(x, v[0]) then [x] + v
    else if x == v[0] then v
    else [v[0]] + Insert(x, v[1..])
  }

  lemma {:induction false} InsertKeepsOrder(x: string, v: seq<string>)
    requires StrictlySorted(v)
    ensures StrictlySorted(Insert(x, v))
    ensures forall y :: y in Insert(x, v) <==> y == x || y in v
  {
    hide Less;
    if v == [] {
    } else if Less(x, v[0]) {
      forall j | 0 <= j < |v|
        ensures Less(x, v[j])
      {
        if j > 0 { LessIsTransitive(x, v[0], v[j]); }
      }
      PrependKeepsOrder(x, v);
    } else if x != v[0] {
      InsertKeepsOrder(x, v[1..]);
      LessIsTotal(x, v[0]);
      var r := Insert(x, v[1..]);
      assert v == [v[0]] + v[1..];
      forall j | 0 <= j < |r|
        ensures Less(v[0], r[j])
      {
        assert r[j] in r;
      }
      PrependKeepsOrder(v[0], r);
    }
  }

  lemma PrependKeepsOrder(x: string, v: seq<string>)
    requires StrictlySorted(v) && forall j :: 0 <= j < |v| ==> Less(x, v[j])
    ensures StrictlySorted([x] + v)
  {
  }

  /** The canonical span list: what the fingerprint is computed from. */
  function Canonical(spans: seq<string>): (v: seq<string>)
  {
    if spans == [] then []
    else
      var rest := Canonical(spans[1..]);
      var t := Trim(spans[0]);
      if t == [] then rest else Insert(t, rest)
  }

  lemma {:induction false} CanonicalIs(spans: seq<string>)
    ensures StrictlySorted(Canonical(spans))
    ensures forall x :: x in Canonical(spans) <==> Contributes(spans, x)
  {
    if spans != [] {
      CanonicalIs(spans[1..]);
      var t := Trim(spans[0]);
      if t != [] {
        InsertKeepsOrder(t, Canonical(spans[1..]));
      }
      forall x
        ensures Contributes(spans, x) <==> (x == t && t != []) || Contributes(spans[1..], x)
      {
        if Contributes(spans[1..], x) {
          var i :| 0 <= i < |spans[1..]| && Trim(spans[1..][i]) == x && x != [];
          assert Trim(spans[i + 1]) == x;
        }
        if Contributes(spans, x) {
          var i :| 0 <= i < |spans| && Trim(spans[i]) == x && x != [];
          if i > 0 {
            assert spans[1..][i - 1] == spans[i];
          }
        }
      }
    }
  }

  /** Order, duplicates, padding and blank entries do not reach the canonical form, and nothing else
      is lost: it is equal exactly when the contributed identities are. */
  lemma CanonicalIgnoresNoise(a: seq<string>, b: seq<string>)
    ensures Canonical(a) == Canonical(b) <==> forall x :: Contributes(a, x) <==> Contributes(b, x)
  {
    CanonicalIs(a);
    CanonicalIs(b);
    if forall x :: Contributes(a, x) <==> Contributes(b, x) {
      SortedSetIsUnique(Canonical(a), Canonical(b));
    }
  }

  /** Padding one entry keeps what the list contributes. */
  lemma PaddingKeepsCanonical(a: seq<string>, i: nat, l: string, r: string)
    requires i < |a| && Blank(l) && Blank(r)
    ensures Canonical(a[i := l + a[i] + r]) == Canonical(a)
  {
    var b := a[i := l + a[i] + r];
    TrimIgnoresPadding(l, a[i], r);
    forall x
      ensures Contributes(a, x) <==> Contributes(b, x)
    {
      if Contributes(a, x) {
        var k :| 0 <= k < |a| && Trim(a[k]) == x && x != [];
        assert Trim(b[k]) == x;
      }
      if Contributes(b, x) {
        var k :| 0 <= k < |b| && Trim(b[k]) == x && x != [];
        assert Trim(a[k]) == x;
      }
    }
    CanonicalIgnoresNoise(a, b);
  }

  // ---------- The vector the source builds ----------

  ghost predicate SameElements(a: seq<string>, b: seq<string>) { forall x :: x in a <==> x in b }

  /** `Vec::sort`, as an insertion sort. */
  method Sort(v: seq<string>) returns (out: seq<string>)
    ensures Sorted(out) && multiset(out) == multiset(v)
  {
    hide Less, Sorted;
    out := [];
    assert Sorted(out) by { EmptyIsSorted(); }
    for i := 0 to |v|
      invariant Sorted(out) && multiset(out) == multiset(v[..i])
    {
      var k := 0;
      while k < |out| && !Less(v[i], out[k])
        invariant 0 <= k <= |out|
        invariant forall j :: 0 <= j < k ==> !Less(v[i], out[j])
      {
        k := k + 1;
      }
      SortedInsert(out, k, v[i]);
      assert out == out[..k] + out[k..];
      assert v[..i + 1] == v[..i] + [v[i]];
      out := out[..k] + [v[i]] + out[k..];
    }
    assert v[..|v|] == v;
  }

  lemma EmptyIsSorted()
    ensures Sorted([])
  {
  }

  lemma SortedInsert(v: seq<string>, k: nat, x: string)
    requires Sorted(v) && k <= |v|
    requires forall j :: 0 <= j < k ==> !Less(x, v[j])
    requires k < |v| ==> Less(x, v[k])
    ensures Sorted(v[..k] + [x] + v[k..])
  {
    forall j | k <= j < |v|
      ensures !Less(v[j], x)
    {
      LessIsTotal(v[j], x);
      if Less(v[j], x) && j > k {
        LessIsTransitive(v[j], x, v[k]);
      }
      LessIsTotal(x, v[k]);
    }
  }

  /** `Vec::dedup` on a sorted vector. */
  method Dedup(v: seq<string>) returns (out: seq<string>)
    requires Sorted(v)
    ensures StrictlySorted(out) && SameElements(out, v)
  {
    out := [];
    for i := 0 to |v|
      invariant StrictlySorted(out) && SameElements(out, v[..i])
      invariant if i == 0 then out == [] else out != [] && out[|out| - 1] == v[i - 1]
    {
      assert v[..i + 1] == v[..i] + [v[i]];
      if out == [] || out[|out| - 1] != v[i] {
        AppendKeepsStrict(out, v[i], v, i);
        out := out + [v[i]];
      }
    }
    assert v[..|v|] == v;
  }

  lemma AppendKeepsStrict(out: seq<string>, x: string, v: seq<string>, i: nat)
    requires Sorted(v) && i < |v| && x == v[i]
    requires StrictlySorted(out) && (forall y :: y in out ==> y in v[..i])
    requires out != [] ==> i > 0 && out[|out| - 1] == v[i - 1] && out[|out| - 1] != x
    ensures StrictlySorted(out + [x])
  {
    if out != [] {
      var last := out[|out| - 1];
      LessIsTotal(last, x);
      forall j | 0 <= j < |out|
        ensures Less(out[j], x)
      {
        if j < |out| - 1 {
          LessIsTransitive(out[j], last, x);
        }
      }
    }
  }

  /** Trim, drop blanks, sort, dedup: the steps the source takes arrive at the canonical form. */
  method CanonicalSpans(spans: seq<string>) returns (out: seq<string>)
    ensures out == Canonical(spans)
  {
    out := [];
    for i := 0 to |spans|
      invariant forall x :: x in out <==> Contributes(spans[..i], x)
    {
      var t := Trim(spans[i]);
      ContributesNext(spans, i);
      if t != [] {
        out := out + [t];
      }
    }
    assert spans[..|spans|] == spans;
    ghost var collected := out;
    out := Sort(out);
    SameMultisetSameElements(out, collected);
    out := Dedup(out);
    CanonicalIs(spans);
    SortedSetIsUnique(out, Canonical(spans));
  }

  lemma ContributesNext(spans: seq<string>, i: nat)
    requires i < |spans|
    ensures forall x :: Contributes(spans[..i + 1], x) <==>
                        Contributes(spans[..i], x) || (x == Trim(spans[i]) && x != [])
  {
    forall x
      ensures Contributes(spans[..i + 1], x) <==> Contributes(spans[..i], x) || (x == Trim(spans[i]) && x != [])
    {
      if Contributes(spans[..i], x) {
        var k :| 0 <= k < i && Trim(spans[..i][k]) == x && x != [];
        assert Trim(spans[..i + 1][k]) == x;
      }
      if x == Trim(spans[i]) && x != [] {
        assert Trim(spans[..i + 1][i]) == x;
      }
      if Contributes(spans[..i + 1], x) {
        var k :| 0 <= k < i + 1 && Trim(spans[..i + 1][k]) == x && x != [];
        assert k < i ==> spans[..i][k] == spans[..i + 1][k];
      }
    }
  }

  lemma SameMultisetSameElements(a: seq<string>, b: seq<string>)
    requires multiset(a) == multiset(b)
    ensures SameElements(a, b)
  {
    forall x
      ensures x in a <==> x in b
    {
      assert x in multiset(a) <==> x in multiset(b);
    }
  }

  // ---------- The fingerprint ----------

  datatype Inputs = Inputs(lens: string, kind: string, spans: seq<string>, contract: Option<string>)

  /** A whitespace-only contract is no contract. */
  function CanonicalContract(c: Option<string>): (r: Option<string>) {
    if c.Some? && Trim(c.value) != [] then c else None
  }

  function Join(parts: seq<string>): (r: string) {
    if parts == [] then []
    else if |parts| == 1 then parts[0]
    else parts[0] + "," + Join(parts[1..])
  }

  function ComputeFingerprint(inputs: Inputs): (fp: string)
  {
    Assemble(inputs.lens, inputs.kind, Join(Canonical(inputs.spans)), ContractText(inputs.contract))
  }

  function ContractText(c: Option<string>): (r: string) {
    if CanonicalContract(c).Some? then c.value else "*"
  }

  function Assemble(lens: string, kind: string, spans: string, contract: string): (fp: string) {
    lens + "|" + kind + "|" + spans + "|" + contract
  }

  predicate SpecificEnough(spans: seq<string>, contract: Option<string>) {
    (exists i :: 0 <= i < |spans| && Trim(spans[i]) != []) || CanonicalContract(contract).Some?
  }

  /** The gate sees exactly what the fingerprint is built from. */
  lemma GateIsCanonical(spans: seq<string>, contract: Option<string>)
    ensures SpecificEnough(spans, contract) <==> Canonical(spans) != [] || !NoContract(contract)
  {
    CanonicalIs(spans);
    if Canonical(spans) != [] {
      assert Contributes(spans, Canonical(spans)[0]);
    }
    if i :| 0 <= i < |spans| && Trim(spans[i]) != [] {
      assert Contributes(spans, Trim(spans[i]));
    }
    SameContractIs(contract, None);
  }

  /** A missing contract and one of white space say the same: nothing. */
  ghost predicate NoContract(c: Option<string>) { c.None? || Blank(c.value) }

  ghost predicate SameContract(a: Option<string>, b: Option<string>) { a == b || (NoContract(a) && NoContract(b)) }

  lemma SameContractIs(a: Option<string>, b: Option<string>)
    ensures CanonicalContract(a) == CanonicalContract(b) <==> SameContract(a, b)
    ensures CanonicalContract(a).None? <==> NoContract(a)
  {
    hide Trim;
    if a.Some? { TrimEmptyIffBlank(a.value); }
    if b.Some? { TrimEmptyIffBlank(b.value); }
  }

  ghost predicate SameFamily(a: Inputs, b: Inputs) {
    && a.lens == b.lens && a.kind == b.kind
    && (forall x :: Contributes(a.spans, x) <==> Contributes(b.spans, x))
    && SameContract(a.contract, b.contract)
  }

  lemma SameContractText(a: Option<string>, b: Option<string>)
    requires SameContract(a, b)
    ensures ContractText(a) == ContractText(b)
  {
    hide Trim;
    SameContractIs(a, b);
  }

  /** Inputs that describe the same family have the same fingerprint and pass the same gate. */
  lemma SameFamilySameFingerprint(a: Inputs, b: Inputs)
    requires SameFamily(a, b)
    ensures ComputeFingerprint(a) == ComputeFingerprint(b)
    ensures SpecificEnough(a.spans, a.contract) == SpecificEnough(b.spans, b.contract)
  {
    CanonicalIgnoresNoise(a.spans, b.spans);
    SameContractIs(a.contract, b.contract);
    SameContractIs(b.contract, a.contract);
    hide Canonical, CanonicalContract;
    GateIsCanonical(a.spans, a.contract);
    GateIsCanonical(b.spans, b.contract);
    assert ContractText(a.contract) == ContractText(b.contract) by { SameContractText(a.contract, b.contract); }
  }

  /** The characters the format relies on do not occur where they would be misread. */
  ghost predicate Separable(a: Inputs) {
    && '|' !in a.lens && '|' !in a.kind
    && (forall i :: 0 <= i < |a.spans| ==> '|' !in a.spans[i] && ',' !in a.spans[i])
    && a.contract != Some("*")
  }

  lemma {:induction false} JoinIsInjective(a: seq<string>, b: seq<string>)
    requires forall i :: 0 <= i < |a| ==> a[i] != [] && ',' !in a[i]
    requires forall i :: 0 <= i < |b| ==> b[i] != [] && ',' !in b[i]
    requires Join(a) == Join(b)
    ensures a == b
  {
    JoinUsesCommas(a);
    JoinUsesCommas(b);
    if |a| >= 2 && |b| >= 2 {
      CutIsUnique(a[0], Join(a[1..]), b[0], Join(b[1..]), ',');
      JoinIsInjective(a[1..], b[1..]);
      assert a == [a[0]] + a[1..] && b == [b[0]] + b[1..];
    }
  }

  lemma JoinUsesCommas(a: seq<string>)
    ensures |a| >= 2 ==> ',' in Join(a)
  {
  }

  lemma {:induction false} JoinAvoids(a: seq<string>, c: char)
    requires c != ',' && forall i :: 0 <= i < |a| ==> c !in a[i]
    ensures c !in Join(a)
  {
    if |a| >= 2 {
      JoinAvoids(a[1..], c);
    }
  }

  lemma TrimKeepsOut(s: string, c: char)
    requires c !in s
    ensures c !in Trim(s)
  {
    var i := TrimStartIs(s);
    var j := TrimEndIs(s[i..]);
    assert Trim(s) == s[i..][..j];
  }

  lemma CanonicalSpansAreClean(a: Inputs)
    requires Separable(a)
    ensures forall i :: 0 <= i < |Canonical(a.spans)| ==>
              Canonical(a.spans)[i] != [] && '|' !in Canonical(a.spans)[i] && ',' !in Canonical(a.spans)[i]
  {
    var v := Canonical(a.spans);
    CanonicalIs(a.spans);
    forall i | 0 <= i < |v|
      ensures v[i] != [] && '|' !in v[i] && ',' !in v[i]
    {
      assert v[i] in v;
      assert Contributes(a.spans, v[i]);
      var k :| 0 <= k < |a.spans| && Trim(a.spans[k]) == v[i] && v[i] != [];
      TrimKeepsOut(a.spans[k], '|');
      TrimKeepsOut(a.spans[k], ',');
    }
  }

  lemma AssembleIsInjective(l: string, k: string, s: string, c: string, l': string, k': string, s': string, c': string)
    requires '|' !in l && '|' !in k && '|' !in s && '|' !in l' && '|' !in k' && '|' !in s'
    requires Assemble(l, k, s, c) == Assemble(l', k', s', c')
    ensures l == l' && k == k' && s == s' && c == c'
  {
    assert Assemble(l, k, s, c) == l + ['|'] + (k + ['|'] + (s + ['|'] + c));
    assert Assemble(l', k', s', c') == l' + ['|'] + (k' + ['|'] + (s' + ['|'] + c'));
    CutIsUnique(l, k + ['|'] + (s + ['|'] + c), l', k' + ['|'] + (s' + ['|'] + c'), '|');
    CutIsUnique(k, s + ['|'] + c, k', s' + ['|'] + c', '|');
    CutIsUnique(s, c, s', c', '|');
  }

  /** On separable inputs the fingerprint is exactly the family: the contract may hold any character. */
  lemma FingerprintIsInjective(a: Inputs, b: Inputs)
    requires Separable(a) && Separable(b)
    ensures ComputeFingerprint(a) == ComputeFingerprint(b) <==> SameFamily(a, b)
  {
    hide Canonical, Join, Assemble, Contributes, Trim;
    if SameFamily(a, b) {
      SameFamilySameFingerprint(a, b);
    }
    if ComputeFingerprint(a) == ComputeFingerprint(b) {
      var va, vb := Canonical(a.spans), Canonical(b.spans);
      CanonicalSpansAreClean(a);
      CanonicalSpansAreClean(b);
      JoinAvoids(va, '|');
      JoinAvoids(vb, '|');
      AssembleIsInjective(a.lens, a.kind, Join(va), ContractText(a.contract),
                          b.lens, b.kind, Join(vb), ContractText(b.contract));
      JoinIsInjective(va, vb);
      CanonicalIgnoresNoise(a.spans, b.spans);
      SameContractIs(a.contract, b.contract);
      SameContractIs(b.contract, a.contract);
    }
  }

  /** Two different families that share a fingerprint. */
  ghost predicate Collide(a: Inputs, b: Inputs) { !SameFamily(a, b) && ComputeFingerprint(a) == ComputeFingerprint(b) }

  /** Each condition is needed: a bar in the lens, the kind or a span, a comma in a span, and the contract
      `*` each make a family share the fingerprint of another one that meets them all. */
  lemma InseparableInputsCollide()
    ensures Separable(Inputs("a", "b", ["c"], Some("x|*"))) && Separable(Inputs("l", "k", ["a", "b"], None))
    ensures Separable(Inputs("l", "k", ["a"], Some("b|*"))) && Separable(Inputs("l", "k", ["a"], None))
    ensures Collide(Inputs("a|b", "c", ["x"], None), Inputs("a", "b", ["c"], Some("x|*")))
    ensures Collide(Inputs("a", "b|c", ["x"], None), Inputs("a", "b", ["c"], Some("x|*")))
    ensures Collide(Inputs("l", "k", ["a|b"], None), Inputs("l", "k", ["a"], Some("b|*")))
    ensures Collide(Inputs("l", "k", ["a,b"], None), Inputs("l", "k", ["a", "b"], None))
    ensures Collide(Inputs("l", "k", ["a"], Some("*")), Inputs("l", "k", ["a"], None))
  {
    hide Canonical, Trim, Contributes;
    BarsCollide();
    CommaCollides();
    SolidContract("*");
    assert CanonicalContract(Some("*")) == Some("*");
  }

  lemma SolidContract(c: string)
    requires c != [] && !IsWhite(c[0])
    ensures CanonicalContract(Some(c)) == Some(c) && ContractText(Some(c)) == c
  {
    TrimEmptyIffBlank(c);
  }

  lemma BarsCollide()
    ensures Collide(Inputs("a|b", "c", ["x"], None), Inputs("a", "b", ["c"], Some("x|*")))
    ensures Collide(Inputs("a", "b|c", ["x"], None), Inputs("a", "b", ["c"], Some("x|*")))
    ensures Collide(Inputs("l", "k", ["a|b"], None), Inputs("l", "k", ["a"], Some("b|*")))
  {
    hide Canonical, Trim, Contributes;
    CanonicalOfOne("x");
    CanonicalOfOne("c");
    CanonicalOfOne("a");
    CanonicalOfOne("a|b");
    SolidContract("x|*");
    SolidContract("b|*");
    assert "a|b" + "|" + "c" + "|" + "x" + "|" + "*" == "a" + "|" + "b" + "|" + "c" + "|" + "x|*";
    assert "a" + "|" + "b|c" + "|" + "x" + "|" + "*" == "a" + "|" + "b" + "|" + "c" + "|" + "x|*";
    assert "l" + "|" + "k" + "|" + "a|b" + "|" + "*" == "l" + "|" + "k" + "|" + "a" + "|" + "b|*";
  }

  lemma CommaCollides()
    ensures Collide(Inputs("l", "k", ["a,b"], None), Inputs("l", "k", ["a", "b"], None))
  {
    hide Canonical, Trim, Contributes;
    CanonicalOfOne("a,b");
    CanonicalOfTwo();
    CanonicalIgnoresNoise(["a,b"], ["a", "b"]);
    assert ["a", "b"][1..] == ["b"];
  }

  lemma CanonicalOfOne(s: string)
    requires s != [] && !IsWhite(s[0]) && !IsWhite(s[|s| - 1])
    ensures Canonical([s]) == [s]
  {
    assert Trim(s) == s;
    assert [s][1..] == [];
  }

  lemma CanonicalOfTwo()
    ensures Canonical(["a", "b"]) == ["a", "b"]
  {
    assert ["a", "b"][1..] == ["b"];
    CanonicalOfOne("b");
  }
}
