/** The prompt linter's scan for marked JSON examples. */
module FenceScanner {
  import opened Text

  // ---------- Markers ----------

  function StripPrefix(s: string, p: string): (r: Option<string>) { if p <= s then Some(s[|p|..]) else None }

  function StripSuffix(s: string, p: string): (r: Option<string>) {
    if |p| <= |s| && s[|s| - |p|..] == p then Some(s[..|s| - |p|]) else None
  }

  /** The text before the first `q`. */
  function Before(s: string, q: char): (r: Option<string>) {
    if s == [] then None
    else if s[0] == q then Some([])
    else
      var rest :- Before(s[1..], q);
      Some([s[0]] + rest)
  }

  const OPEN := "<!--"
  const CLOSE := "-->"
  const KEYWORD := "lint:example"
  const ATTRIBUTE := "schema="

  /** The schema a marker line names, or `None` for any other line. */
  function ParseMarker(line: string): (r: Option<string>) {
    var a :- StripPrefix(Trim(line), OPEN);
    var b :- StripSuffix(a, CLOSE);
    ParseComment(b, KEYWORD, ATTRIBUTE)
  }

  /** The text between the comment's ends: the keyword, the attribute, and its quoted value. */
  function ParseComment(b: string, keyword: string, attribute: string): (r: Option<string>) {
    var c :- StripPrefix(Trim(b), keyword);
    var d :- StripPrefix(TrimStart(c), attribute);
    var rest := TrimStart(d);
    if rest != [] && (rest[0] == '"' || rest[0] == '\'') then Before(rest[1..], rest[0]) else None
  }

  lemma {:induction false} BeforeIs(name: string, q: char, rest: string)
    requires q !in name
    ensures Before(name + [q] + rest, q) == Some(name)
  {
    var s := name + [q] + rest;
    if name != [] {
      assert s[1..] == name[1..] + [q] + rest;
      BeforeIs(name[1..], q, rest);
      assert name == [name[0]] + name[1..];
    }
  }

  lemma TrimStartSolid(l: string, s: string)
    requires Blank(l) && s != [] && !IsWhite(s[0])
    ensures TrimStart(l + s) == s
  {
    hide IsWhite;
    TrimStartSkips(l, s);
  }

  lemma {:induction false} TrimEndKeepsHead(s: string, r: string)
    requires s != [] && !IsWhite(s[|s| - 1])
    ensures TrimEnd(s + r) == s + TrimEnd(r)
  {
    hide IsWhite;
    if r == [] {
      assert s + r == s && s + TrimEnd(r) == s;
    } else {
      var n := |r| - 1;
      assert (s + r)[..|s + r| - 1] == s + r[..n] && (s + r)[|s| + n] == r[n];
      if IsWhite(r[n]) {
        TrimEndKeepsHead(s, r[..n]);
      }
    }
  }

  /** Text that begins solid, behind white space and before anything. */
  lemma TrimBehind(l: string, s: string, r: string)
    requires Blank(l) && s != [] && !IsWhite(s[0]) && !IsWhite(s[|s| - 1])
    ensures Trim(l + s + r) == s + TrimEnd(r) && (Blank(r) ==> Trim(l + s + r) == s)
  {
    hide IsWhite, TrimEnd, TrimStart;
    assert l + s + r == l + (s + r);
    TrimStartSolid(l, s + r);
    TrimEndKeepsHead(s, r);
    if Blank(r) {
      TrimEndSkips([], r);
      assert [] + r == r && s + [] == s;
      TrimOfNothing();
    }
  }

  lemma TrimOfNothing()
    ensures TrimEnd([]) == []
  {
  }

  lemma SolidCharacters(q: char)
    requires q == '"' || q == '\''
    ensures !IsWhite(q) && !IsWhite('<') && !IsWhite('>') && !IsWhite('l') && !IsWhite('s')
  {
  }

  lemma Strips(p: string, rest: string, front: string, suffix: string)
    ensures StripPrefix(p + rest, p) == Some(rest) && StripSuffix(front + suffix, suffix) == Some(front)
  {
    assert (p + rest)[|p|..] == rest;
    assert (front + suffix)[|front|..] == suffix && (front + suffix)[..|front|] == front;
  }

  /** The white space around the parts of a marker, and whatever follows its closing quote. */
  datatype Filling = Filling(left: string, open: string, keyword: string, attribute: string,
                             rest: string, right: string)

  predicate AllWhite(w: Filling) {
    Blank(w.left) && Blank(w.open) && Blank(w.keyword) && Blank(w.attribute) && Blank(w.right)
  }

  function MarkerText(name: string, q: char, w: Filling): (line: string) {
    var inner := "lint:example" + (w.keyword + ("schema=" + (w.attribute + ([q] + name + [q]))));
    w.left + ("<!--" + (w.open + inner + w.rest) + "-->") + w.right
  }

  /** A marker is recognised with either quote, any white space around its parts and anything after its
      closing quote, and gives its name back. The name may hold anything but its own quote. */
  lemma MarkerRoundTrip(name: string, q: char, w: Filling)
    requires (q == '"' || q == '\'') && q !in name && AllWhite(w)
    ensures ParseMarker(MarkerText(name, q, w)) == Some(name)
  {
    hide Trim, IsWhite, Blank, ParseComment, StripPrefix, StripSuffix;
    var quoted := [q] + name + [q];
    var inner := KEYWORD + (w.keyword + (ATTRIBUTE + (w.attribute + quoted)));
    var middle := w.open + inner + w.rest;
    var whole := OPEN + middle + CLOSE;
    SolidCharacters(q);
    assert whole[0] == '<' && whole[|whole| - 1] == '>';
    TrimBehind(w.left, whole, w.right);
    Strips(OPEN, middle + CLOSE, middle, CLOSE);
    assert whole == OPEN + (middle + CLOSE);
    CommentRoundTrip(name, q, w, KEYWORD, ATTRIBUTE);
  }

  lemma CommentRoundTrip(name: string, q: char, w: Filling, keyword: string, attribute: string)
    requires (q == '"' || q == '\'') && q !in name && AllWhite(w)
    requires keyword != [] && !IsWhite(keyword[0]) && attribute != [] && !IsWhite(attribute[0])
    ensures ParseComment(w.open + (keyword + (w.keyword + (attribute + (w.attribute + ([q] + name + [q]))))) + w.rest,
                         keyword, attribute) == Some(name)
  {
    hide Trim, TrimStart, TrimEnd, IsWhite, Before, Blank, StripPrefix;
    var quoted, tail := [q] + name + [q], TrimEnd(w.rest);
    var attr := attribute + (w.attribute + quoted);
    var inner := keyword + (w.keyword + attr);
    SolidCharacters(q);
    assert quoted[|quoted| - 1] == q && inner[|inner| - 1] == q && inner[0] == keyword[0];
    TrimBehind(w.open, inner, w.rest);
    assert inner + tail == keyword + (w.keyword + (attr + tail));
    Strips(keyword, w.keyword + (attr + tail), [], []);
    assert (attr + tail)[0] == attribute[0];
    TrimStartSolid(w.keyword, attr + tail);
    assert attr + tail == attribute + (w.attribute + (quoted + tail));
    Strips(attribute, w.attribute + (quoted + tail), [], []);
    assert (quoted + tail)[0] == q;
    TrimStartSolid(w.attribute, quoted + tail);
    assert (quoted + tail)[1..] == name + [q] + tail;
    BeforeIs(name, q, tail);
  }

  lemma {:induction false} BeforeSplits(s: string, q: char) returns (rest: string)
    requires Before(s, q).Some?
    ensures q !in Before(s, q).value && s == Before(s, q).value + [q] + rest
  {
    if s[0] == q {
      rest := s[1..];
    } else {
      rest := BeforeSplits(s[1..], q);
      assert s == [s[0]] + s[1..];
    }
  }

  lemma TrimStartSplits(s: string) returns (l: string)
    ensures s == l + TrimStart(s) && Blank(l)
  {
    var k := TrimStartIs(s);
    l := s[..k];
  }

  /** Nothing else is a marker: every line that is read as one has this form. */
  lemma MarkerHasForm(line: string) returns (q: char, w: Filling)
    requires ParseMarker(line).Some?
    ensures (q == '"' || q == '\'') && q !in ParseMarker(line).value && AllWhite(w)
    ensures line == MarkerText(ParseMarker(line).value, q, w)
  {
    hide Trim, IsWhite, Blank, ParseComment;
    var left, right := TrimIs(line);
    var a := StripPrefix(Trim(line), OPEN).value;
    var b := StripSuffix(a, CLOSE).value;
    assert Trim(line) == OPEN + b + CLOSE;
    q, w := CommentHasForm(b, KEYWORD, ATTRIBUTE);
    w := w.(left := left, right := right);
  }

  lemma CommentHasForm(b: string, keyword: string, attribute: string) returns (q: char, w: Filling)
    requires ParseComment(b, keyword, attribute).Some?
    ensures (q == '"' || q == '\'') && q !in ParseComment(b, keyword, attribute).value && AllWhite(w)
    ensures var name := ParseComment(b, keyword, attribute).value;
            b == w.open + (keyword + (w.keyword + (attribute + (w.attribute + ([q] + name + [q]))))) + w.rest
  {
    hide Trim, TrimStart, TrimEnd, IsWhite, Before;
    var open, after := TrimIs(b);
    var c := StripPrefix(Trim(b), keyword).value;
    var white1 := TrimStartSplits(c);
    var d := StripPrefix(TrimStart(c), attribute).value;
    var white2 := TrimStartSplits(d);
    var text := TrimStart(d);
    q := text[0];
    var tail := BeforeSplits(text[1..], q);
    w := Filling([], open, white1, white2, tail + after, []);
    hide Blank, StripPrefix;
    var name := ParseComment(b, keyword, attribute).value;
    var quoted := [q] + name + [q];
    assert text == quoted + tail;
    Regroup(open, keyword, white1, attribute, white2, quoted, tail, after);
  }

  lemma Regroup(o: string, k: string, x: string, a: string, y: string, quoted: string, tail: string, after: string)
    ensures o + (k + (x + (a + (y + (quoted + tail))))) + after == o + (k + (x + (a + (y + quoted)))) + (tail + after)
  {
    assert y + (quoted + tail) == y + quoted + tail;
    assert a + (y + quoted + tail) == a + (y + quoted) + tail;
    assert x + (a + (y + quoted) + tail) == x + (a + (y + quoted)) + tail;
    assert k + (x + (a + (y + quoted)) + tail) == k + (x + (a + (y + quoted))) + tail;
  }

  // ---------- Examples ----------

  /** What the linter says about a marked example. */
  datatype Verdict = Clean | UnknownSchema | NotJson | BadSchema | Mismatch(errors: seq<string>)

  datatype Outcome = Dangling | Unclosed | Closed(close: nat, verdict: Verdict)

  /** A classified marker: its line, the first non-blank line after it, and what became of it. */
  datatype Example = Example(marker: nat, schema: string, opener: nat, outcome: Outcome)

  /** Looks a schema up and validates the body of a fence against it. */
  type Judge = (string, seq<string>) -> Verdict

  /** The line after everything an example takes up. */
  function Next(lines: seq<string>, e: Example): (n: nat) {
    match e.outcome
    case Dangling => e.opener
    case Unclosed => |lines|
    case Closed(close, _) => close + 1
  }

  predicate IsMarker(lines: seq<string>, i: int) { 0 <= i < |lines| && ParseMarker(Trim(lines[i])).Some? }

  predicate IsBlank(line: string) { Trim(line) == [] }

  predicate Opens(line: string) { Trim(line) == "```json" }

  predicate Closes(line: string) { Trim(line) == "```" }

  /** First line from `i` on that is not blank. */
  function SkipBlank(lines: seq<string>, i: nat): (j: nat)
    requires i <= |lines|
    ensures i <= j <= |lines| && (j < |lines| ==> !IsBlank(lines[j])) && forall k :: i <= k < j ==> IsBlank(lines[k])
    decreases |lines| - i
  {
    if i < |lines| && IsBlank(lines[i]) then SkipBlank(lines, i + 1) else i
  }

  /** First line from `i` on that closes a fence. */
  function FindClose(lines: seq<string>, i: nat): (j: nat)
    requires i <= |lines|
    ensures i <= j <= |lines| && (j < |lines| ==> Closes(lines[j])) && forall k :: i <= k < j ==> !Closes(lines[k])
    decreases |lines| - i
  {
    if i < |lines| && !Closes(lines[i]) then FindClose(lines, i + 1) else i
  }

  function Classify(lines: seq<string>, i: nat, judge: Judge): (e: Example)
    requires IsMarker(lines, i)
    ensures i < Next(lines, e) <= |lines|
  {
    var name := ParseMarker(Trim(lines[i])).value;
    var j := SkipBlank(lines, i + 1);
    if j >= |lines| || !Opens(lines[j]) then Example(i, name, j, Dangling)
    else
      var close := FindClose(lines, j + 1);
      if close >= |lines| then Example(i, name, j, Unclosed)
      else Example(i, name, j, Closed(close, judge(name, lines[j + 1..close])))
  }

  /** The examples from line `i` on. */
  function Scan(lines: seq<string>, i: nat, judge: Judge): (es: seq<Example>)
    decreases |lines| - i
  {
    if i >= |lines| then []
    else if !IsMarker(lines, i) then Scan(lines, i + 1, judge)
    else
      var e := Classify(lines, i, judge);
      [e] + Scan(lines, Next(lines, e), judge)
  }

  datatype Finding = Finding(marker: nat, opener: nat, outcome: Outcome)

  function FindingsOf(e: Example): (fs: seq<Finding>) {
    if e.outcome.Closed? && e.outcome.verdict.Clean? then [] else [Finding(e.marker, e.opener, e.outcome)]
  }

  function Findings(es: seq<Example>): (fs: seq<Finding>) {
    if es == [] then [] else FindingsOf(es[0]) + Findings(es[1..])
  }

  /** The scanner's loop. */
  method CheckExampleFences(lines: seq<string>, judge: Judge) returns (findings: seq<Finding>)
    ensures findings == Findings(Scan(lines, 0, judge))
  {
    hide IsMarker, Scan, Findings, Classify;
    findings := [];
    var i := 0;
    while i < |lines|
      invariant i <= |lines|
      invariant findings + Findings(Scan(lines, i, judge)) == Findings(Scan(lines, 0, judge))
      decreases |lines| - i
    {
      if IsMarker(lines, i) {
        Unfold(lines, i, judge, findings);
        var found, next := CheckExample(lines, i, judge);
        findings := findings + found;
        i := next;
      } else {
        SkipLine(lines, i, judge);
        i := i + 1;
      }
    }
    SkipLine(lines, i, judge);
    assert findings + [] == findings;
  }

  /** One marked example: what is found, and the line to go on from. */
  method CheckExample(lines: seq<string>, i: nat, judge: Judge) returns (found: seq<Finding>, next: nat)
    requires IsMarker(lines, i)
    ensures found == FindingsOf(Classify(lines, i, judge)) && next == Next(lines, Classify(lines, i, judge))
    ensures i < next <= |lines|
  {
    hide IsBlank, Opens, Closes, ParseMarker, Classify, Trim, SkipBlank, FindClose;
    ClassifyIs(lines, i, judge);
    var j := FirstNonBlank(lines, i + 1);
    if j >= |lines| || !Opens(lines[j]) {
      return [Finding(i, j, Dangling)], j;
    }
    var close := FirstClosing(lines, j + 1);
    if close >= |lines| {
      return [Finding(i, j, Unclosed)], |lines|;
    }
    var verdict := judge(MarkerName(lines, i), lines[j + 1..close]);
    return if verdict.Clean? then [] else [Finding(i, j, Closed(close, verdict))], close + 1;
  }

  method FirstNonBlank(lines: seq<string>, i: nat) returns (j: nat)
    requires i <= |lines|
    ensures j == SkipBlank(lines, i)
  {
    hide IsBlank;
    j := i;
    while j < |lines| && IsBlank(lines[j])
      invariant i <= j <= |lines| && SkipBlank(lines, j) == SkipBlank(lines, i)
    {
      j := j + 1;
    }
  }

  method FirstClosing(lines: seq<string>, i: nat) returns (close: nat)
    requires i <= |lines|
    ensures close == FindClose(lines, i)
  {
    hide Closes;
    close := i;
    while close < |lines| && !Closes(lines[close])
      invariant i <= close <= |lines| && FindClose(lines, close) == FindClose(lines, i)
    {
      close := close + 1;
    }
  }

  function MarkerName(lines: seq<string>, i: nat): (name: string)
    requires IsMarker(lines, i)
  {
    ParseMarker(Trim(lines[i])).value
  }

  lemma SkipLine(lines: seq<string>, i: nat, judge: Judge)
    ensures i < |lines| && !IsMarker(lines, i) ==> Scan(lines, i, judge) == Scan(lines, i + 1, judge)
    ensures i >= |lines| ==> Findings(Scan(lines, i, judge)) == []
  {
  }

  lemma ClassifyIs(lines: seq<string>, i: nat, judge: Judge)
    requires IsMarker(lines, i)
    ensures var e, j := Classify(lines, i, judge), SkipBlank(lines, i + 1);
            && e.marker == i && e.opener == j
            && (if j >= |lines| || !Opens(lines[j]) then e.outcome == Dangling
                else
                  var close := FindClose(lines, j + 1);
                  e.outcome == if close >= |lines| then Unclosed
                               else Closed(close, judge(MarkerName(lines, i), lines[j + 1..close])))
  {
    hide ParseMarker;
  }

  lemma Unfold(lines: seq<string>, i: nat, judge: Judge, before: seq<Finding>)
    requires IsMarker(lines, i)
    ensures var e := Classify(lines, i, judge);
            before + Findings(Scan(lines, i, judge)) ==
            before + FindingsOf(e) + Findings(Scan(lines, Next(lines, e), judge))
  {
  }

  // ---------- What the scan means ----------

  /** An example described without reference to how it is found. */
  ghost predicate Describes(lines: seq<string>, judge: Judge, e: Example) {
    && e.marker < e.opener <= |lines| && ParseMarker(Trim(lines[e.marker])) == Some(e.schema)
    && (forall k :: e.marker < k < e.opener ==> Blank(lines[k]))
    && (e.opener < |lines| ==> !Blank(lines[e.opener]))
    && (e.outcome.Dangling? <==> e.opener == |lines| || Trim(lines[e.opener]) != "```json")
    && (e.outcome.Unclosed? ==> forall k :: e.opener < k < |lines| ==> Trim(lines[k]) != "```")
    && (e.outcome.Closed? ==>
          && e.opener < e.outcome.close < |lines| && Trim(lines[e.outcome.close]) == "```"
          && (forall k :: e.opener < k < e.outcome.close ==> Trim(lines[k]) != "```")
          && e.outcome.verdict == judge(e.schema, lines[e.opener + 1..e.outcome.close]))
  }

  /** A line lies inside the fence of an example, its opening and closing lines included. */
  ghost predicate InFence(lines: seq<string>, e: Example, m: int) {
    !e.outcome.Dangling? && e.opener <= m < Next(lines, e)
  }

  /** The ranges follow one another from line `i` on. */
  ghost predicate InOrder(lines: seq<string>, i: nat, es: seq<Example>) {
    && (forall k :: 0 <= k < |es| ==> i <= es[k].marker < Next(lines, es[k]) <= |lines|)
    && (forall k, l :: 0 <= k < l < |es| ==> Next(lines, es[k]) <= es[l].marker)
  }

  /** Every marker line is classified or lies in a classified fence. */
  ghost predicate Accounted(lines: seq<string>, i: nat, es: seq<Example>) {
    forall m :: i <= m < |lines| && ParseMarker(Trim(lines[m])).Some? ==>
      exists k :: 0 <= k < |es| && (es[k].marker == m || InFence(lines, es[k], m))
  }

  ghost predicate IsScan(lines: seq<string>, i: nat, judge: Judge, es: seq<Example>) {
    && InOrder(lines, i, es) && Accounted(lines, i, es)
    && forall k :: 0 <= k < |es| ==> Describes(lines, judge, es[k])
  }

  lemma ClassifyDescribes(lines: seq<string>, i: nat, judge: Judge)
    requires IsMarker(lines, i)
    ensures Describes(lines, judge, Classify(lines, i, judge))
  {
    hide ParseMarker, Trim;
    forall k | 0 <= k < |lines|
      ensures IsBlank(lines[k]) <==> Blank(lines[k])
    {
      TrimEmptyIffBlank(lines[k]);
    }
    hide Blank;
  }

  /** A description leaves nothing open. */
  lemma DescriptionIsUnique(lines: seq<string>, judge: Judge, a: Example, b: Example)
    requires Describes(lines, judge, a) && Describes(lines, judge, b) && a.marker == b.marker
    ensures a == b
  {
    hide ParseMarker, Trim, Blank;
    assert a.opener == b.opener;
    if a.outcome.Closed? && b.outcome.Closed? {
      assert a.outcome.close == b.outcome.close;
    }
  }

  /** Between a dangling marker and the next non-blank line there are no markers. */
  lemma GapHasNoMarkers(lines: seq<string>, judge: Judge, e: Example, m: int)
    requires Describes(lines, judge, e) && e.marker < m < Next(lines, e) && IsMarker(lines, m)
    ensures InFence(lines, e, m)
  {
    hide ParseMarker, Trim, Blank;
    BlankIsNoMarker(lines, m);
  }

  lemma BlankIsNoMarker(lines: seq<string>, m: int)
    ensures IsMarker(lines, m) ==> 0 <= m < |lines| && !Blank(lines[m])
  {
    hide IsWhite;
    if 0 <= m < |lines| {
      TrimEmptyIffBlank(lines[m]);
    }
  }

  lemma {:induction false} ScanIsScan(lines: seq<string>, i: nat, judge: Judge)
    ensures IsScan(lines, i, judge, Scan(lines, i, judge))
    decreases |lines| - i
  {
    hide ParseMarker, Trim, Describes, Classify;
    if i >= |lines| {
    } else if !IsMarker(lines, i) {
      ScanIsScan(lines, i + 1, judge);
    } else {
      var e := Classify(lines, i, judge);
      var n := Next(lines, e);
      ClassifyDescribes(lines, i, judge);
      MarkerOfClassify(lines, i, judge);
      ScanIsScan(lines, n, judge);
      Prepend(lines, i, judge, e, Scan(lines, n, judge));
    }
  }

  lemma MarkerOfClassify(lines: seq<string>, i: nat, judge: Judge)
    requires IsMarker(lines, i)
    ensures Classify(lines, i, judge).marker == i
  {
  }

  lemma Prepend(lines: seq<string>, i: nat, judge: Judge, e: Example, rest: seq<Example>)
    requires e.marker == i < Next(lines, e) <= |lines| && Describes(lines, judge, e)
    requires IsScan(lines, Next(lines, e), judge, rest)
    ensures IsScan(lines, i, judge, [e] + rest)
  {
    hide Describes, Accounted, Next, InOrder;
    var es := [e] + rest;
    assert es[0] == e && forall k :: 0 <= k < |rest| ==> es[k + 1] == rest[k];
    PrependOrders(lines, i, e, rest);
    PrependAccounts(lines, i, judge, e, rest);
  }

  lemma PrependOrders(lines: seq<string>, i: nat, e: Example, rest: seq<Example>)
    requires e.marker == i < Next(lines, e) <= |lines| && InOrder(lines, Next(lines, e), rest)
    ensures InOrder(lines, i, [e] + rest)
  {
    hide Next;
    var es := [e] + rest;
    forall k | 0 <= k < |es|
      ensures i <= es[k].marker < Next(lines, es[k]) <= |lines|
      ensures k > 0 ==> Next(lines, e) <= es[k].marker
    {
      if k > 0 { assert es[k] == rest[k - 1]; }
    }
    forall k, l | 0 <= k < l < |es|
      ensures Next(lines, es[k]) <= es[l].marker
    {
      if k > 0 { assert es[k] == rest[k - 1] && es[l] == rest[l - 1]; }
    }
  }

  lemma PrependAccounts(lines: seq<string>, i: nat, judge: Judge, e: Example, rest: seq<Example>)
    requires e.marker == i && Describes(lines, judge, e) && Accounted(lines, Next(lines, e), rest)
    ensures Accounted(lines, i, [e] + rest)
  {
    hide ParseMarker, Trim, Describes, InFence, Next;
    var es, n := [e] + rest, Next(lines, e);
    assert es[0] == e && forall k :: 0 <= k < |rest| ==> es[k + 1] == rest[k];
    forall m | i <= m < |lines| && ParseMarker(Trim(lines[m])).Some?
      ensures exists k :: 0 <= k < |es| && (es[k].marker == m || InFence(lines, es[k], m))
    {
      if m == i {
        assert es[0].marker == m;
      } else if m < n {
        GapHasNoMarkers(lines, judge, e, m);
        assert InFence(lines, es[0], m);
      } else {
        var k :| 0 <= k < |rest| && (rest[k].marker == m || InFence(lines, rest[k], m));
        assert es[k + 1] == rest[k];
      }
    }
  }

  /** The scan is the only list of described examples, in order and without overlap, that accounts for
      every marker. */
  lemma {:induction false} ScanIsUnique(lines: seq<string>, i: nat, judge: Judge, es: seq<Example>)
    requires IsScan(lines, i, judge, es)
    ensures es == Scan(lines, i, judge)
    decreases |lines| - i
  {
    hide Describes, Classify, ParseMarker, Trim;
    if i >= |lines| {
      assert es == [];
    } else if !IsMarker(lines, i) {
      forall k | 0 <= k < |es|
        ensures es[k].marker != i
      {
        MarkerOf(lines, judge, es[k]);
      }
      ScanIsUnique(lines, i + 1, judge, es);
    } else {
      hide IsScan, Next;
      FirstIsClassified(lines, i, judge, es);
      DropFirst(lines, i, judge, es);
      ScanIsUnique(lines, Next(lines, es[0]), judge, es[1..]);
      assert es == [es[0]] + es[1..];
    }
  }

  lemma FirstIsClassified(lines: seq<string>, i: nat, judge: Judge, es: seq<Example>)
    requires IsScan(lines, i, judge, es) && IsMarker(lines, i)
    ensures es != [] && es[0] == Classify(lines, i, judge)
  {
    hide Describes, Classify, ParseMarker, Trim;
    assert i < |lines| by { MarkerIsALine(lines, i); }
    var k :| 0 <= k < |es| && (es[k].marker == i || InFence(lines, es[k], i));
    MarkerOf(lines, judge, es[k]);
    assert es[k].marker == i;
    assert k == 0;
    ClassifyDescribes(lines, i, judge);
    MarkerOfClassify(lines, i, judge);
    DescriptionIsUnique(lines, judge, es[0], Classify(lines, i, judge));
  }

  lemma MarkerIsALine(lines: seq<string>, i: int)
    requires IsMarker(lines, i)
    ensures 0 <= i < |lines|
  {
  }

  lemma MarkerOf(lines: seq<string>, judge: Judge, e: Example)
    requires Describes(lines, judge, e)
    ensures IsMarker(lines, e.marker) && e.marker < e.opener
  {
  }

  lemma DropFirst(lines: seq<string>, i: nat, judge: Judge, es: seq<Example>)
    requires IsScan(lines, i, judge, es) && es != []
    ensures IsScan(lines, Next(lines, es[0]), judge, es[1..])
  {
    hide ParseMarker, Trim, Describes;
    var rest, n := es[1..], Next(lines, es[0]);
    assert forall k :: 0 <= k < |rest| ==> rest[k] == es[k + 1];
    forall m | n <= m < |lines| && ParseMarker(Trim(lines[m])).Some?
      ensures exists k :: 0 <= k < |rest| && (rest[k].marker == m || InFence(lines, rest[k], m))
    {
      var k :| 0 <= k < |es| && (es[k].marker == m || InFence(lines, es[k], m));
      assert rest[k - 1] == es[k];
    }
  }

  // ---------- Findings ----------

  /** The findings are those of the classified markers, at most one each. */
  lemma {:induction false} FindingsAre(es: seq<Example>, f: Finding)
    ensures f in Findings(es) <==> exists k :: 0 <= k < |es| && f in FindingsOf(es[k])
  {
    hide FindingsOf;
    if es != [] {
      var rest := es[1..];
      FindingsAre(rest, f);
      if k :| 0 <= k < |rest| && f in FindingsOf(rest[k]) {
        assert f in FindingsOf(es[k + 1]);
      }
      if k :| 0 <= k < |es| && f in FindingsOf(es[k]) {
        assert k > 0 ==> f in FindingsOf(rest[k - 1]);
      }
    }
  }

  ghost predicate MarkersIncrease(i: nat, fs: seq<Finding>) {
    && (forall a :: 0 <= a < |fs| ==> i <= fs[a].marker)
    && (forall a, b :: 0 <= a < b < |fs| ==> fs[a].marker < fs[b].marker)
  }

  /** They come in the order of their markers, so no marker has two. */
  lemma {:induction false} FindingsFollowExamples(lines: seq<string>, i: nat, es: seq<Example>)
    requires InOrder(lines, i, es)
    ensures MarkersIncrease(i, Findings(es))
    decreases |es|
  {
    if es != [] {
      var e, rest := es[0], es[1..];
      assert forall k :: 0 <= k < |rest| ==> rest[k] == es[k + 1];
      FindingsFollowExamples(lines, Next(lines, e), rest);
      hide InOrder, Next, Findings;
      var fs := Findings(rest);
      assert MarkersIncrease(i, fs);
      FrontIncreases(i, e, fs);
    }
  }

  lemma FrontIncreases(i: nat, e: Example, fs: seq<Finding>)
    requires i <= e.marker && MarkersIncrease(e.marker + 1, fs)
    ensures MarkersIncrease(i, FindingsOf(e) + fs)
  {
    if FindingsOf(e) == [] {
      assert FindingsOf(e) + fs == fs;
    }
  }

  /** Which examples are reported, and as what: for every scan of the text, a finding for a classified marker
      is reported exactly when its example is not a closed fence the judge found clean, and it carries that
      example's opener and outcome. */
  lemma FindingIff(lines: seq<string>, judge: Judge, es: seq<Example>, k: nat, f: Finding)
    requires IsScan(lines, 0, judge, es) && k < |es| && f.marker == es[k].marker
    ensures f in Findings(Scan(lines, 0, judge)) <==>
            && f.opener == es[k].opener && f.outcome == es[k].outcome
            && !(es[k].outcome.Closed? && es[k].outcome.verdict == Clean)
  {
    hide Scan, Describes, Accounted, ParseMarker, Trim;
    ScanIsUnique(lines, 0, judge, es);
    FindingsAre(es, f);
    if i :| 0 <= i < |es| && f in FindingsOf(es[i]) {
      assert i == k;
    }
  }

  /** And nothing is reported but for classified markers. */
  lemma FindingHasMarker(lines: seq<string>, judge: Judge, es: seq<Example>, f: Finding)
    requires IsScan(lines, 0, judge, es) && f in Findings(Scan(lines, 0, judge))
    ensures exists k :: 0 <= k < |es| && es[k].marker == f.marker
  {
    hide Scan, Describes, Accounted, InOrder, ParseMarker, Trim;
    ScanIsUnique(lines, 0, judge, es);
    FindingsAre(es, f);
  }

  /** A text without markers is never faulted. */
  lemma NoMarkersNoFindings(lines: seq<string>, judge: Judge)
    requires forall i :: 0 <= i < |lines| ==> ParseMarker(Trim(lines[i])).None?
    ensures Findings(Scan(lines, 0, judge)) == []
  {
    hide ParseMarker, Trim, Scan;
    ScanIsUnique(lines, 0, judge, []);
  }
}
