/** Configuration overrides that git reads from numbered environment variables. */
module GitConfigEnv {
  import opened Text

  const USIZE_MAX: nat := 0xFFFF_FFFF_FFFF_FFFF
  const COUNT := "GIT_CONFIG_COUNT"

  /** Assignments in the order a command receives them. */
  type Env = seq<(string, string)>

  function Decimal(n: nat): (s: string) { Pad(n, 1) }

  function KeyName(n: nat): (s: string) { "GIT_CONFIG_KEY_" + Decimal(n) }

  function ValueName(n: nat): (s: string) { "GIT_CONFIG_VALUE_" + Decimal(n) }

  function ParseUsize(s: string): (r: Option<nat>) {
    var digits := if s != [] && s[0] == '+' then s[1..] else s;
    if digits == [] || !AllDigits(digits) || Value(digits) > USIZE_MAX then None else Some(Value(digits))
  }

  // ---------- What git sees ----------

  /** The last assignment to a variable wins. */
  function Lookup(env: Env, name: string): (r: Option<string>) {
    if env == [] then None
    else if env[|env| - 1].0 == name then Some(env[|env| - 1].1)
    else Lookup(env[..|env| - 1], name)
  }

  /** The first `n` overrides, if all their variables are set. */
  function Slots(env: Env, n: nat): (r: Option<seq<(string, string)>>) {
    if n == 0 then Some([])
    else
      var before :- Slots(env, n - 1);
      var key :- Lookup(env, KeyName(n - 1));
      var value :- Lookup(env, ValueName(n - 1));
      Some(before + [(key, value)])
  }

  /** The overrides an environment stands for. */
  function Decode(env: Env): (r: Option<seq<(string, string)>>) {
    var count := Lookup(env, COUNT);
    if count.None? then Some([])
    else
      var n :- ParseUsize(count.value);
      Slots(env, n)
  }

  // ---------- One more override ----------

  /** Position of the first assignment to a variable, or the number of assignments. */
  function Find(env: Env, name: string): (i: nat)
    ensures i <= |env| && (i < |env| ==> env[i].0 == name)
    ensures forall k :: 0 <= k < i ==> env[k].0 != name
  {
    if env == [] || env[0].0 == name then 0 else 1 + Find(env[1..], name)
  }

  /** Missing and unreadable counts are zero. */
  function Previous(env: Env): (n: nat) {
    var i := Find(env, COUNT);
    if i < |env| && ParseUsize(env[i].1).Some? then ParseUsize(env[i].1).value else 0
  }

  function Counted(env: Env, n: nat): (r: Env) {
    var i := Find(env, COUNT);
    if i < |env| then env[i := (COUNT, Decimal(n))] else env + [(COUNT, Decimal(n))]
  }

  function Merged(base: Env, key: string, value: string): (r: Env) {
    var n := Previous(base);
    Counted(base, n + 1) + [(KeyName(n), key)] + [(ValueName(n), value)]
  }

  /** `None`: the count overflowed. */
  method MergeGitConfigEntry(base: Env, key: string, value: string) returns (r: Option<Env>)
    ensures r.None? <==> Previous(base) >= USIZE_MAX
    ensures r.Some? ==> r.value == Merged(base, key, value)
  {
    var env := base;
    var slot := Find(env, COUNT);
    var prev := 0;
    if slot < |env| && ParseUsize(env[slot].1).Some? {
      prev := ParseUsize(env[slot].1).value;
    }
    if prev >= USIZE_MAX {
      return None;
    }
    if slot < |env| {
      env := env[slot := (COUNT, Decimal(prev + 1))];
    } else {
      env := env + [(COUNT, Decimal(prev + 1))];
    }
    env := env + [(KeyName(prev), key)];
    env := env + [(ValueName(prev), value)];
    return Some(env);
  }

  // ---------- Names ----------

  /** The numbered variables are all different, and none is the count. */
  lemma NamesDiffer(m: nat, n: nat)
    ensures KeyName(m) == KeyName(n) <==> m == n
    ensures ValueName(m) == ValueName(n) <==> m == n
    ensures KeyName(m) != ValueName(n) && KeyName(m) != COUNT && ValueName(m) != COUNT
  {
    hide Pad;
    var k, v := "GIT_CONFIG_KEY_", "GIT_CONFIG_VALUE_";
    PadIsInjective(m, n, 1);
    assert KeyName(m)[|k|..] == Decimal(m) && KeyName(n)[|k|..] == Decimal(n);
    assert ValueName(m)[|v|..] == Decimal(m) && ValueName(n)[|v|..] == Decimal(n);
    assert KeyName(m)[11] == 'K' && ValueName(n)[11] == 'V' && ValueName(m)[11] == 'V' && COUNT[11] == 'C';
  }

  lemma DecimalParses(n: nat)
    requires n <= USIZE_MAX
    ensures ParseUsize(Decimal(n)) == Some(n)
  {
    hide Pad, Value;
    PadRoundTrip(n, 1);
    assert IsDigit(Decimal(n)[0]);
  }

  // ---------- Lookups after a change ----------

  lemma LookupAppend(env: Env, a: string, b: string, name: string)
    ensures Lookup(env + [(a, b)], name) == if name == a then Some(b) else Lookup(env, name)
  {
  }

  lemma {:induction false} LookupAbsent(env: Env, name: string)
    ensures Lookup(env, name).None? <==> forall i :: 0 <= i < |env| ==> env[i].0 != name
  {
    if env != [] {
      var n := |env| - 1;
      LookupAbsent(env[..n], name);
      assert forall i :: 0 <= i < n ==> env[..n][i] == env[i];
    }
  }

  /** Changing one assignment is seen only through its own variable, and only if it is the last one. */
  lemma {:induction false} LookupUpdate(env: Env, i: nat, b: string, name: string)
    requires i < |env|
    ensures var env' := env[i := (env[i].0, b)];
            Lookup(env', name) ==
            if name == env[i].0 && (forall k :: i < k < |env| ==> env[k].0 != name) then Some(b) else Lookup(env, name)
  {
    var n := |env| - 1;
    var env' := env[i := (env[i].0, b)];
    if i < n {
      assert env'[..n] == env[..n][i := (env[i].0, b)];
      LookupUpdate(env[..n], i, b, name);
      assert forall k :: 0 <= k < n ==> env[..n][k] == env[k];
    } else {
      assert env'[..n] == env[..n];
    }
  }

  // ---------- Merging is appending ----------

  ghost predicate SingleCount(env: Env) {
    forall i, j :: 0 <= i < j < |env| ==> env[i].0 != COUNT || env[j].0 != COUNT
  }

  lemma CountedLookup(env: Env, n: nat, name: string)
    ensures name != COUNT ==> Lookup(Counted(env, n), name) == Lookup(env, name)
    ensures Lookup(Counted(env, n), COUNT) == if SingleCount(env) then Some(Decimal(n)) else Lookup(env, COUNT)
    ensures SingleCount(Counted(env, n)) <==> SingleCount(env)
  {
    hide Lookup;
    var i := Find(env, COUNT);
    if i < |env| {
      LookupUpdate(env, i, Decimal(n), name);
      LookupUpdate(env, i, Decimal(n), COUNT);
      assert SingleCount(env) <==> forall k :: i < k < |env| ==> env[k].0 != COUNT;
      var c := Counted(env, n);
      assert forall k :: 0 <= k < |env| ==> c[k].0 == env[k].0;
      if !SingleCount(env) {
        var k :| i < k < |env| && env[k].0 == COUNT;
        assert c[i].0 == COUNT && c[k].0 == COUNT;
      }
    } else {
      LookupAppend(env, COUNT, Decimal(n), name);
      LookupAppend(env, COUNT, Decimal(n), COUNT);
    }
  }

  /** What a merge does to every variable: only the count and the new slot change. */
  lemma MergedLookup(env: Env, key: string, value: string, name: string)
    ensures var e, n := Merged(env, key, value), Previous(env);
            && Lookup(e, KeyName(n)) == Some(key) && Lookup(e, ValueName(n)) == Some(value)
            && Lookup(e, COUNT) == (if SingleCount(env) then Some(Decimal(n + 1)) else Lookup(env, COUNT))
            && (name != COUNT && name != KeyName(n) && name != ValueName(n) ==> Lookup(e, name) == Lookup(env, name))
  {
    hide Lookup, Counted, SingleCount, KeyName, ValueName, Previous;
    var n := Previous(env);
    var c := Counted(env, n + 1);
    var d := c + [(KeyName(n), key)];
    CountedLookup(env, n + 1, name);
    NamesDiffer(n, n);
    LookupAppend(c, KeyName(n), key, name);
    LookupAppend(c, KeyName(n), key, COUNT);
    LookupAppend(c, KeyName(n), key, KeyName(n));
    LookupAppend(d, ValueName(n), value, name);
    LookupAppend(d, ValueName(n), value, COUNT);
    LookupAppend(d, ValueName(n), value, KeyName(n));
    LookupAppend(d, ValueName(n), value, ValueName(n));
  }

  lemma {:induction false} SlotsSame(a: Env, b: Env, n: nat)
    requires forall i: nat :: i < n ==> Lookup(a, KeyName(i)) == Lookup(b, KeyName(i))
    requires forall i: nat :: i < n ==> Lookup(a, ValueName(i)) == Lookup(b, ValueName(i))
    ensures Slots(a, n) == Slots(b, n)
  {
    hide Lookup, KeyName, ValueName;
    if n > 0 {
      SlotsSame(a, b, n - 1);
    }
  }

  lemma {:induction false} SlotsLength(env: Env, n: nat)
    ensures Slots(env, n).Some? ==> |Slots(env, n).value| == n
  {
    hide Lookup, KeyName, ValueName;
    if n > 0 {
      SlotsLength(env, n - 1);
    }
  }

  /** The merge counts from the first count entry; a missing or unreadable one is zero. */
  lemma PreviousByCases(env: Env, i: nat)
    ensures (forall k :: 0 <= k < |env| ==> env[k].0 != COUNT) ==> Previous(env) == 0
    ensures i < |env| && env[i].0 == "GIT_CONFIG_COUNT" && (forall k :: 0 <= k < i ==> env[k].0 != COUNT) ==>
              Previous(env) == if ParseUsize(env[i].1).Some? then ParseUsize(env[i].1).value else 0
  {
    hide ParseUsize;
  }

  /** A count is a decimal number that fits, with an optional plus sign. */
  lemma CountsAreDecimal(n: nat, s: string)
    ensures n <= USIZE_MAX ==> ParseUsize(Decimal(n)) == Some(n) && ParseUsize("+" + Decimal(n)) == Some(n)
    ensures n > USIZE_MAX ==> ParseUsize(Decimal(n)).None?
    ensures s == [] || (exists i :: 0 < i < |s| && !IsDigit(s[i])) ==> ParseUsize(s).None?
  {
    hide Pad, Value;
    PadRoundTrip(n, 1);
    assert IsDigit(Decimal(n)[0]);
    assert ("+" + Decimal(n))[1..] == Decimal(n);
    if i :| 0 < i < |s| && !IsDigit(s[i]) {
      assert s[1..][i - 1] == s[i];
    }
  }

  /** With one count entry, what git reads is what the merge counts from. */
  lemma PreviousIs(env: Env)
    requires SingleCount(env) && Decode(env).Some?
    ensures Previous(env) <= USIZE_MAX && Slots(env, Previous(env)) == Decode(env)
  {
    hide Slots, ParseUsize;
    var i := Find(env, COUNT);
    if i < |env| {
      LookupUpdate(env, i, env[i].1, COUNT);
      assert env[i := (env[i].0, env[i].1)] == env;
      assert Lookup(env, COUNT) == Some(env[i].1);
      ParseIsBounded(env[i].1);
    } else {
      LookupAbsent(env, COUNT);
      assert Slots(env, 0) == Some([]) by { NoSlots(env); }
    }
  }

  lemma ParseIsBounded(s: string)
    ensures ParseUsize(s).Some? ==> ParseUsize(s).value <= USIZE_MAX
  {
  }

  lemma NoSlots(env: Env)
    ensures Slots(env, 0) == Some([])
  {
  }

  /** On every environment git can read, a merge adds exactly its pair to the overrides if and only if
      the environment assigns the count at most once. */
  lemma MergeAppendsIff(env: Env, key: string, value: string)
    requires Decode(env).Some? && Previous(env) < USIZE_MAX
    ensures Decode(Merged(env, key, value)) == Some(Decode(env).value + [(key, value)]) <==> SingleCount(env)
  {
    hide Lookup, Merged, Previous, SingleCount, KeyName, ValueName, Decimal, ParseUsize;
    var e, n := Merged(env, key, value), Previous(env);
    MergedLookup(env, key, value, "");
    if SingleCount(env) {
      PreviousIs(env);
      DecimalParses(n + 1);
      forall i: nat | i < n
        ensures Lookup(e, KeyName(i)) == Lookup(env, KeyName(i)) && Lookup(e, ValueName(i)) == Lookup(env, ValueName(i))
      {
        NamesDiffer(i, n);
        NamesDiffer(n, i);
        MergedLookup(env, key, value, KeyName(i));
        MergedLookup(env, key, value, ValueName(i));
      }
      SlotsSame(e, env, n);
    } else {
      TwiceCounted(env, e);
    }
  }

  /** A second count entry hides the merge: git goes on reading the old number of overrides. */
  lemma TwiceCounted(env: Env, e: Env)
    requires Decode(env).Some? && !SingleCount(env) && Lookup(e, COUNT) == Lookup(env, COUNT)
    ensures Decode(e).Some? ==> |Decode(e).value| == |Decode(env).value|
  {
    hide Lookup, ParseUsize, SingleCount;
    var count := Lookup(env, COUNT);
    if count.Some? {
      var n := ParseUsize(count.value).value;
      SlotsLength(env, n);
      SlotsLength(e, n);
    }
  }

  lemma MergeKeepsSingle(env: Env, key: string, value: string)
    requires SingleCount(env)
    ensures SingleCount(Merged(env, key, value))
  {
    hide Counted, KeyName, ValueName;
    var n := Previous(env);
    CountedLookup(env, n + 1, "");
    NamesDiffer(n, n);
  }

  // ---------- Stacking ----------

  function Stacked(env: Env, pairs: seq<(string, string)>): (r: Env) {
    if pairs == [] then env
    else var p := pairs[|pairs| - 1]; Merged(Stacked(env, pairs[..|pairs| - 1]), p.0, p.1)
  }

  /** Any number of merges onto an environment adds all their pairs, in order. */
  lemma {:induction false} StackedDecodes(env: Env, pairs: seq<(string, string)>)
    requires SingleCount(env) && Decode(env).Some? && |Decode(env).value| + |pairs| <= USIZE_MAX
    ensures SingleCount(Stacked(env, pairs))
    ensures Decode(Stacked(env, pairs)) == Some(Decode(env).value + pairs)
  {
    hide Decode, Merged, SingleCount;
    if pairs == [] {
      assert Decode(env).value + pairs == Decode(env).value;
    } else {
      var n := |pairs| - 1;
      var e := Stacked(env, pairs[..n]);
      StackedDecodes(env, pairs[..n]);
      PreviousIsLength(e);
      MergeAppendsIff(e, pairs[n].0, pairs[n].1);
      MergeKeepsSingle(e, pairs[n].0, pairs[n].1);
      assert Decode(env).value + pairs == Decode(env).value + pairs[..n] + [(pairs[n].0, pairs[n].1)];
    }
  }

  lemma PreviousIsLength(env: Env)
    requires SingleCount(env) && Decode(env).Some?
    ensures Previous(env) == |Decode(env).value|
  {
    hide Decode, Previous, Slots, SingleCount;
    PreviousIs(env);
    SlotsLength(env, Previous(env));
  }

  /** From nothing, they are exactly the pairs. */
  lemma StackedFromEmpty(pairs: seq<(string, string)>)
    requires |pairs| <= USIZE_MAX
    ensures Decode(Stacked([], pairs)) == Some(pairs)
  {
    hide Stacked;
    assert Decode([]) == Some([]) && [] + pairs == pairs;
    StackedDecodes([], pairs);
  }
}
