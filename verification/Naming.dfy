/** Group-name templating: `processGroupName` and `GetTransformedGroupName`. */
module Naming {
  import opened Common

  // ---------------------------------------------------------------- strings

  /** `strings.ReplaceAll` for a non-empty pattern: leftmost, non-overlapping. */
  function ReplaceAll(s: string, pat: string, with: string): string
    requires pat != ""
    decreases |s|
  {
    if |s| < |pat| then s
    else if pat <= s then with + ReplaceAll(s[|pat|..], pat, with)
    else [s[0]] + ReplaceAll(s[1..], pat, with)
  }

  /** `strings.Contains` for a non-empty pattern. */
  predicate Contains(s: string, sub: string)
    requires sub != ""
  {
    |s| >= |sub| && (sub <= s || Contains(s[1..], sub))
  }

  function Digit(d: nat): char
    requires d < 10
  {
    '0' + d as char
  }

  /** Decimal notation, as `%d` prints it. */
  function Decimal(n: nat): (s: string)
    ensures s != ""
  {
    if n < 10 then [Digit(n)] else Decimal(n / 10) + [Digit(n % 10)]
  }

  const UNDERSCORED := "|replace(-,_)"

  function Placeholder(i: nat): (s: string)
    ensures |s| >= 2 && s[0] == '$'
  {
    "$" + Decimal(i)
  }

  // ---------------------------------------------------------------- the code

  /** One turn of the loop of `processGroupName`. */
  function ReplaceGroup(result: string, i: nat, capture: string): string {
    if Contains(result, Placeholder(i) + UNDERSCORED)
    then ReplaceAll(result, Placeholder(i) + UNDERSCORED, ReplaceAll(capture, "-", "_"))
    else ReplaceAll(result, Placeholder(i), capture)
  }

  /** The loop over the capture groups from `i` on. */
  function ReplaceGroups(result: string, matches: seq<string>, i: nat): string
    decreases |matches| - i
  {
    if i >= |matches| then result
    else ReplaceGroups(ReplaceGroup(result, i, matches[i]), matches, i + 1)
  }

  method ProcessGroupName(outputTemplate: string, matches: seq<string>) returns (result: string)
    ensures result == ReplaceGroups(outputTemplate, matches, 1)
  {
    result := outputTemplate;
    var i := 1;
    while i < |matches|
      invariant ReplaceGroups(result, matches, i) == ReplaceGroups(outputTemplate, matches, 1)
    {
      var placeholder := Placeholder(i);
      if Contains(result, placeholder + UNDERSCORED) {
        var replaced := ReplaceAll(matches[i], "-", "_");
        result := ReplaceAll(result, placeholder + UNDERSCORED, replaced);
      } else {
        result := ReplaceAll(result, placeholder, matches[i]);
      }
      i := i + 1;
    }
  }

  /** What `regexp` answers: the pattern does not compile, or the list of captures,
      empty when nothing matches. */
  datatype MatchOutcome = Uncompilable | Captures(groups: seq<string>)

  datatype Pattern = Pattern(input: string -> MatchOutcome, output: string)

  function FirstMatch(patterns: seq<Pattern>, name: string): Result<string> {
    if patterns == [] then Err(NoPattern)
    else
      match patterns[0].input(name)
      case Uncompilable => Err(InvalidPattern)
      case Captures(groups) =>
        if |groups| > 0 then Ok(ReplaceGroups(patterns[0].output, groups, 1))
        else FirstMatch(patterns[1..], name)
  }

  /** `GetTransformedGroupName`. */
  function Transform(patterns: map<string, seq<Pattern>>, kind: string, name: string): Result<string> {
    FirstMatch(if kind in patterns then patterns[kind]
               else if "default" in patterns then patterns["default"] else [], name)
  }

  /** The pattern compiles and does not match. */
  predicate Passes(p: Pattern, name: string) {
    p.input(name) == Captures([])
  }

  /** The first pattern that does not pass decides. */
  ghost predicate Decides(patterns: seq<Pattern>, name: string, i: int) {
    0 <= i < |patterns| && !Passes(patterns[i], name) && forall k :: 0 <= k < i ==> Passes(patterns[k], name)
  }

  /** First match: the earliest pattern that does not pass decides, by failing or by giving
      its processed output; if all pass there is no name. */
  lemma {:induction false} FirstMatchExact(patterns: seq<Pattern>, name: string)
    ensures FirstMatch(patterns, name) == Err(NoPattern) <==>
      forall k :: 0 <= k < |patterns| ==> Passes(patterns[k], name)
    ensures forall i :: Decides(patterns, name, i) ==>
      FirstMatch(patterns, name) ==
        match patterns[i].input(name)
        case Uncompilable => Err(InvalidPattern)
        case Captures(groups) => Ok(ReplaceGroups(patterns[i].output, groups, 1))
  {
    if patterns != [] {
      var rest := patterns[1..];
      FirstMatchExact(rest, name);
      assert forall k :: 0 <= k < |rest| ==> rest[k] == patterns[k + 1];
      if Passes(patterns[0], name) {
        assert FirstMatch(patterns, name) == FirstMatch(rest, name);
        forall i | Decides(patterns, name, i)
          ensures Decides(rest, name, i - 1)
        {
          assert i != 0;
        }
        assert (forall k :: 0 <= k < |patterns| ==> Passes(patterns[k], name))
          <==> (forall k :: 0 <= k < |rest| ==> Passes(rest[k], name)) by {
          assert forall k :: 0 < k < |patterns| ==> patterns[k] == rest[k - 1];
        }
      } else {
        assert forall i :: Decides(patterns, name, i) ==> i == 0;
      }
    }
  }

  /** `r` is what the patterns of this list make of the name. */
  ghost predicate NamedBy(patterns: seq<Pattern>, name: string, r: Result<string>) {
    && (r == Err(NoPattern) <==> forall k :: 0 <= k < |patterns| ==> Passes(patterns[k], name))
    && (forall i :: Decides(patterns, name, i) ==>
          r == match patterns[i].input(name)
               case Uncompilable => Err(InvalidPattern)
               case Captures(groups) => Ok(ReplaceGroups(patterns[i].output, groups, 1)))
  }

  /** Which patterns name a team: those of the backend type if it has any configured, even an
      empty list; else the default ones; and if there are none either, there is no name. Nothing
      else in the configuration matters. */
  lemma TransformExact(patterns: map<string, seq<Pattern>>, kind: string, name: string)
    ensures kind in patterns ==> NamedBy(patterns[kind], name, Transform(patterns, kind, name))
    ensures kind !in patterns && "default" in patterns ==>
      NamedBy(patterns["default"], name, Transform(patterns, kind, name))
    ensures kind !in patterns && "default" !in patterns ==> Transform(patterns, kind, name) == Err(NoPattern)
  {
    if kind in patterns {
      FirstMatchExact(patterns[kind], name);
    } else if "default" in patterns {
      FirstMatchExact(patterns["default"], name);
    }
  }

  /** Replacing one character by another: the length stays, every occurrence is replaced and
      everything else kept. So a capture in its underscored form has `_` exactly where it had
      `-` or `_`. */
  lemma {:induction false} ReplaceChar(s: string, c: char, d: char)
    ensures
      var r := ReplaceAll(s, [c], [d]);
      |r| == |s| && forall i :: 0 <= i < |s| ==> r[i] == if s[i] == c then d else s[i]
  {
    if s != "" {
      ReplaceChar(s[1..], c, d);
      assert [c] <= s <==> s[0] == c;
    }
  }

  /** The special form, alone in a template: whatever was captured, it becomes the capture with
      `_` for each `-`. */
  lemma UnderscoredForm(capture: string)
    ensures
      var r := ReplaceGroups("$1|replace(-,_)", ["", capture], 1);
      |r| == |capture| && forall i :: 0 <= i < |capture| ==> r[i] == if capture[i] == '-' then '_' else capture[i]
  {
    ReplaceChar(capture, '-', '_');
    var whole := Placeholder(1) + UNDERSCORED;
    assert whole == "$1|replace(-,_)";
    assert Contains(whole, whole);
    assert ReplaceAll(whole, whole, ReplaceAll(capture, "-", "_")) == ReplaceAll(capture, "-", "_") + "";
  }

  // ---------------------------------------------------------------- the meaning of a template

  /** A template: literal text, `$d`, or `$d|replace(-,_)`. */
  datatype Token = Text(s: string) | Plain(d: nat) | Under(d: nat)

  /** Text free of the two characters that templates treat specially. */
  predicate Clean(s: string) {
    '$' !in s && '|' !in s
  }

  predicate ValidToken(t: Token) {
    match t
    case Text(s) => Clean(s)
    case Plain(d) => d < 10
    case Under(d) => d < 10
  }

  predicate ValidTemplate(ts: seq<Token>) {
    forall i :: 0 <= i < |ts| ==> ValidToken(ts[i])
  }

  function Show(t: Token): string
  {
    match t
    case Text(s) => s
    case Plain(d) => Placeholder(d)
    case Under(d) => Placeholder(d) + UNDERSCORED
  }

  /** The template as written in the configuration. */
  function Render(ts: seq<Token>): string {
    if ts == [] then "" else Show(ts[0]) + Render(ts[1..])
  }

  /** Does `d` name a capture group of `matches`? Group 0 is never substituted. */
  predicate Captured(matches: seq<string>, d: nat) {
    1 <= d < |matches|
  }

  /** A token with its capture filled in. */
  function Fill(t: Token, matches: seq<string>): Token {
    match t
    case Text(s) => t
    case Plain(d) => if Captured(matches, d) then Text(matches[d]) else t
    case Under(d) => if Captured(matches, d) then Text(ReplaceAll(matches[d], "-", "_")) else t
  }

  function FillAll(ts: seq<Token>, matches: seq<string>): (r: seq<Token>)
    ensures |r| == |ts| && forall i :: 0 <= i < |ts| ==> r[i] == Fill(ts[i], matches)
  {
    seq(|ts|, i requires 0 <= i < |ts| => Fill(ts[i], matches))
  }

  /** One-pass simultaneous substitution: every captured placeholder is replaced at
      once; the others stay as written. */
  function Substitute(ts: seq<Token>, matches: seq<string>): string {
    Render(FillAll(ts, matches))
  }

  /** No captured placeholder is written both as `$d` and as `$d|replace(-,_)`. */
  predicate OneFormEach(ts: seq<Token>, matches: seq<string>) {
    forall d :: 1 <= d < |matches| ==> !(Plain(d) in ts && Under(d) in ts)
  }

  // ---------------------------------------------------------------- proof

  /** What one turn of the loop does to one token. */
  function Turn(t: Token, d: nat, capture: string, under: bool): Token {
    if t == Under(d) then Text(ReplaceAll(capture, "-", "_"))
    else if t == Plain(d) && !under then Text(capture)
    else t
  }

  function TurnAll(ts: seq<Token>, d: nat, capture: string, under: bool): (r: seq<Token>)
    ensures |r| == |ts| && forall i :: 0 <= i < |ts| ==> r[i] == Turn(ts[i], d, capture, under)
  {
    if ts == [] then [] else [Turn(ts[0], d, capture, under)] + TurnAll(ts[1..], d, capture, under)
  }

  lemma {:induction false} ReplaceKeepsClean(s: string, pat: string, with: string)
    requires pat != "" && Clean(s) && Clean(with)
    ensures Clean(ReplaceAll(s, pat, with))
    decreases |s|
  {
    if |s| >= |pat| {
      if pat <= s { ReplaceKeepsClean(s[|pat|..], pat, with); } else { ReplaceKeepsClean(s[1..], pat, with); }
    }
  }

  /** Text without `$` passes through a replacement of something that starts with `$`. */
  lemma {:induction false} ReplaceSkips(text: string, rest: string, pat: string, with: string)
    requires pat != "" && pat[0] == '$' && '$' !in text
    ensures ReplaceAll(text + rest, pat, with) == text + ReplaceAll(rest, pat, with)
    decreases |text|
  {
    if text == "" {
      assert text + rest == rest;
    } else {
      assert text[0] != '$';
      assert (text + rest)[0] == text[0] && (text + rest)[1..] == text[1..] + rest;
      ReplaceSkips(text[1..], rest, pat, with);
      assert !(pat <= text + rest);
      if |text + rest| < |pat| {
        assert |rest| < |pat|;
      } else {
        assert text + ReplaceAll(rest, pat, with) == [text[0]] + (text[1..] + ReplaceAll(rest, pat, with));
      }
    }
  }

  lemma {:induction false} ContainsSkips(text: string, rest: string, sub: string)
    requires sub != "" && sub[0] == '$' && '$' !in text
    ensures Contains(text + rest, sub) == Contains(rest, sub)
    decreases |text|
  {
    if text == "" {
      assert text + rest == rest;
    } else {
      assert text[0] != '$';
      assert (text + rest)[0] == text[0] && (text + rest)[1..] == text[1..] + rest;
      ContainsSkips(text[1..], rest, sub);
      ContainsNeedsRoom(rest, sub);
    }
  }

  lemma ContainsNeedsRoom(s: string, sub: string)
    requires sub != ""
    ensures Contains(s, sub) ==> |s| >= |sub|
  {
  }

  /** A string in which a rendered template can continue: it does not start like the
      tail of an underscored placeholder. */
  predicate NoPipe(s: string) {
    s == "" || s[0] != '|'
  }

  lemma {:induction false} RenderNoPipe(ts: seq<Token>)
    requires ValidTemplate(ts)
    ensures NoPipe(Render(ts))
  {
    if ts != [] {
      RenderNoPipe(ts[1..]);
      assert Render(ts) == Show(ts[0]) + Render(ts[1..]);
      if ts[0].Text? && ts[0].s != "" { assert ts[0].s[0] in ts[0].s; }
    }
  }

  /** `$d` and its underscored form, taken apart. */
  lemma ShowShape(d: nat)
    requires d < 10
    ensures Placeholder(d) == ['$', Digit(d)]
    ensures Placeholder(d) + UNDERSCORED == ['$', Digit(d)] + UNDERSCORED
  {
  }

  /** What a placeholder token starts with. */
  lemma PlaceholderPrefix(t: Token, rest: string, d: nat)
    requires !t.Text? && ValidToken(t) && d < 10 && NoPipe(rest)
    ensures Placeholder(d) <= Show(t) + rest <==> t.d == d
    ensures Placeholder(d) + UNDERSCORED <= Show(t) + rest <==> t == Under(d)
  {
    var s := Show(t) + rest;
    ShowShape(d);
    ShowShape(t.d);
    assert s[0] == '$' && s[1] == Digit(t.d);
    assert Digit(t.d) == Digit(d) <==> t.d == d;
    if t.Plain? {
      assert s[2..] == rest;
      var p := Placeholder(d) + UNDERSCORED;
      assert p[2] == '|';
    } else {
      assert s == Show(t) + rest;
    }
  }

  /** The tail of a placeholder token contains no `$`. */
  lemma PlaceholderTail(t: Token, rest: string)
    requires !t.Text? && ValidToken(t)
    ensures |Show(t)| >= 2
    ensures (Show(t) + rest)[1..] == Show(t)[1..] + rest && '$' !in Show(t)[1..]
  {
    ShowShape(t.d);
    var tail := Show(t)[1..];
    assert tail == [Digit(t.d)] || tail == [Digit(t.d)] + UNDERSCORED;
    assert '$' !in UNDERSCORED;
  }

  lemma {:induction false} RenderContains(ts: seq<Token>, d: nat)
    requires ValidTemplate(ts) && d < 10
    ensures Contains(Render(ts), Placeholder(d) + UNDERSCORED) <==> Under(d) in ts
  {
    var p := Placeholder(d) + UNDERSCORED;
    if ts != [] {
      var t, rest := ts[0], Render(ts[1..]);
      RenderContains(ts[1..], d);
      RenderNoPipe(ts[1..]);
      if t.Text? {
        ContainsSkips(t.s, rest, p);
      } else {
        PlaceholderPrefix(t, rest, d);
        PlaceholderTail(t, rest);
        ContainsSkips(Show(t)[1..], rest, p);
        ContainsNeedsRoom(rest, p);
      }
    }
  }

  /** Replacing a placeholder in a rendered template replaces the tokens. */
  lemma {:induction false} RenderTurn(ts: seq<Token>, d: nat, capture: string, under: bool)
    requires ValidTemplate(ts) && d < 10 && (under <==> Under(d) in ts)
    ensures under ==>
      ReplaceAll(Render(ts), Placeholder(d) + UNDERSCORED, ReplaceAll(capture, "-", "_"))
        == Render(TurnAll(ts, d, capture, true))
    ensures !under ==>
      ReplaceAll(Render(ts), Placeholder(d), capture) == Render(TurnAll(ts, d, capture, false))
  {
    if under {
      RenderReplace(ts, d, Placeholder(d) + UNDERSCORED, ReplaceAll(capture, "-", "_"), capture, true);
    } else {
      RenderReplace(ts, d, Placeholder(d), capture, capture, false);
    }
  }

  lemma {:induction false} RenderReplace(
    ts: seq<Token>, d: nat, pat: string, with: string, capture: string, under: bool)
    requires ValidTemplate(ts) && d < 10
    requires under ==> pat == Placeholder(d) + UNDERSCORED && with == ReplaceAll(capture, "-", "_")
    requires !under ==> pat == Placeholder(d) && with == capture && Under(d) !in ts
    ensures ReplaceAll(Render(ts), pat, with) == Render(TurnAll(ts, d, capture, under))
  {
    if ts != [] {
      var t, rest := ts[0], Render(ts[1..]);
      RenderReplace(ts[1..], d, pat, with, capture, under);
      assert TurnAll(ts, d, capture, under)[1..] == TurnAll(ts[1..], d, capture, under);
      if t.Text? {
        ReplaceSkips(t.s, rest, pat, with);
      } else {
        RenderNoPipe(ts[1..]);
        PlaceholderPrefix(t, rest, d);
        if Turn(t, d, capture, under) != t {
          assert Show(t) == pat;
          assert (pat + rest)[|pat|..] == rest;
        } else {
          PlaceholderTail(t, rest);
          ReplaceSkipsHead(Show(t), rest, pat, with);
        }
      }
    }
  }

  /** A string whose only `$` comes first, and which is not the start of a match, stays. */
  lemma ReplaceSkipsHead(head: string, rest: string, pat: string, with: string)
    requires head != "" && '$' !in head[1..]
    requires pat != "" && pat[0] == '$' && !(pat <= head + rest)
    ensures ReplaceAll(head + rest, pat, with) == head + ReplaceAll(rest, pat, with)
  {
    var s, tail := head + rest, head[1..];
    assert s[1..] == tail + rest;
    ReplaceSkips(tail, rest, pat, with);
    assert head == [s[0]] + tail;
    if |s| >= |pat| {
      assert ReplaceAll(s, pat, with) == [s[0]] + (tail + ReplaceAll(rest, pat, with));
    }
  }

  lemma TurnKeepsValid(ts: seq<Token>, d: nat, capture: string, under: bool)
    requires ValidTemplate(ts) && Clean(capture)
    ensures ValidTemplate(TurnAll(ts, d, capture, under))
  {
    ReplaceKeepsClean(capture, "-", "_");
  }

  /** The tokens left by the loop from turn `d` on. */
  function Settle(ts: seq<Token>, matches: seq<string>, d: nat): seq<Token>
    decreases |matches| - d
  {
    if d >= |matches| then ts
    else Settle(TurnAll(ts, d, matches[d], Under(d) in ts), matches, d + 1)
  }

  predicate CleanCaptures(matches: seq<string>) {
    |matches| <= 10 && forall i :: 1 <= i < |matches| ==> Clean(matches[i])
  }

  lemma {:induction false} LoopSettles(ts: seq<Token>, matches: seq<string>, d: nat)
    requires ValidTemplate(ts) && CleanCaptures(matches) && 1 <= d
    ensures ReplaceGroups(Render(ts), matches, d) == Render(Settle(ts, matches, d))
    decreases |matches| - d
  {
    if d < |matches| {
      var under := Under(d) in ts;
      RenderContains(ts, d);
      RenderTurn(ts, d, matches[d], under);
      TurnKeepsValid(ts, d, matches[d], under);
      LoopSettles(TurnAll(ts, d, matches[d], under), matches, d + 1);
    }
  }

  /** What becomes of one token: filled in, unless it is a plain placeholder whose
      underscored form also occurs in the template. */
  function Outcome(t: Token, ts: seq<Token>, matches: seq<string>): Token {
    if t.Plain? && Captured(matches, t.d) && Under(t.d) in ts then t else Fill(t, matches)
  }

  /** A turn does not touch the other placeholders. */
  lemma TurnKeepsUnder(ts: seq<Token>, d: nat, capture: string, under: bool, e: nat)
    requires e != d
    ensures Under(e) in TurnAll(ts, d, capture, under) <==> Under(e) in ts
  {
    var ts' := TurnAll(ts, d, capture, under);
    if Under(e) in ts' {
      var k :| 0 <= k < |ts'| && ts'[k] == Under(e);
      assert ts[k] == Under(e);
    }
    if Under(e) in ts {
      var k :| 0 <= k < |ts| && ts[k] == Under(e);
      assert ts'[k] == Under(e);
    }
  }

  lemma {:induction false} SettleTokens(ts: seq<Token>, matches: seq<string>, d: nat, i: nat)
    requires i < |ts| && 1 <= d
    ensures |Settle(ts, matches, d)| == |ts|
    ensures Settle(ts, matches, d)[i] ==
      if !ts[i].Text? && ts[i].d < d then ts[i] else Outcome(ts[i], ts, matches)
    decreases |matches| - d
  {
    if d < |matches| {
      var under := Under(d) in ts;
      SettleTokens(TurnAll(ts, d, matches[d], under), matches, d + 1, i);
      if !ts[i].Text? && ts[i].d != d {
        TurnKeepsUnder(ts, d, matches[d], under, ts[i].d);
      }
    }
  }

  function Dollars(s: string): nat {
    if s == "" then 0 else (if s[0] == '$' then 1 else 0) + Dollars(s[1..])
  }

  lemma {:induction false} DollarsConcat(a: string, b: string)
    ensures Dollars(a + b) == Dollars(a) + Dollars(b)
  {
    if a == "" {
      assert a + b == b;
    } else {
      assert (a + b)[1..] == a[1..] + b;
      DollarsConcat(a[1..], b);
    }
  }

  lemma {:induction false} NoDollars(s: string)
    requires '$' !in s
    ensures Dollars(s) == 0
  {
    if s != "" { NoDollars(s[1..]); }
  }

  /** A rendered template has one `$` per placeholder token. */
  lemma DollarsShow(t: Token)
    requires ValidToken(t)
    ensures Dollars(Show(t)) == if t.Text? then 0 else 1
  {
    if t.Text? {
      NoDollars(t.s);
    } else {
      PlaceholderTail(t, "");
      NoDollars(Show(t)[1..]);
    }
  }

  /** Two renderings that differ only in that some placeholders of `b` are filled
      with clean text in `a`: equal strings only if nothing was filled. */
  lemma {:induction false} FilledMoreMeansFewerDollars(a: seq<Token>, b: seq<Token>)
    requires |a| == |b| && ValidTemplate(a) && ValidTemplate(b)
    requires forall i :: 0 <= i < |a| ==> a[i] == b[i] || a[i].Text?
    ensures Dollars(Render(a)) <= Dollars(Render(b))
    ensures (exists i :: 0 <= i < |a| && a[i].Text? && !b[i].Text?) ==> Dollars(Render(a)) < Dollars(Render(b))
  {
    if a != [] {
      FilledMoreMeansFewerDollars(a[1..], b[1..]);
      DollarsConcat(Show(a[0]), Render(a[1..]));
      DollarsConcat(Show(b[0]), Render(b[1..]));
      DollarsShow(a[0]);
      DollarsShow(b[0]);
      if i :| 0 <= i < |a| && a[i].Text? && !b[i].Text? {
        assert i > 0 ==> a[1..][i - 1].Text? && !b[1..][i - 1].Text?;
      }
    }
  }

  lemma FillKeepsValid(ts: seq<Token>, matches: seq<string>)
    requires ValidTemplate(ts) && CleanCaptures(matches)
    ensures ValidTemplate(FillAll(ts, matches))
  {
    forall i | 0 <= i < |ts|
      ensures ValidToken(FillAll(ts, matches)[i])
    {
      if ts[i].Under? && Captured(matches, ts[i].d) { ReplaceKeepsClean(matches[ts[i].d], "-", "_"); }
    }
  }

  lemma SettledTokens(ts: seq<Token>, matches: seq<string>)
    requires ValidTemplate(ts)
    ensures |Settle(ts, matches, 1)| == |ts|
    ensures forall i :: 0 <= i < |ts| ==> Settle(ts, matches, 1)[i] == Outcome(ts[i], ts, matches)
  {
    if ts == [] {
      SettleEmpty(matches, 1);
    } else {
      forall i | 0 <= i < |ts|
        ensures |Settle(ts, matches, 1)| == |ts| && Settle(ts, matches, 1)[i] == Outcome(ts[i], ts, matches)
      {
        SettleTokens(ts, matches, 1, i);
      }
      SettleTokens(ts, matches, 1, 0);
    }
  }

  lemma {:induction false} SettleEmpty(matches: seq<string>, d: nat)
    ensures Settle([], matches, d) == []
    decreases |matches| - d
  {
    if d < |matches| { SettleEmpty(matches, d + 1); }
  }

  /** A plain placeholder left over by the loop makes the two results differ. */
  lemma LeftoverDiffers(ts: seq<Token>, settled: seq<Token>, filled: seq<Token>, i: nat)
    requires ValidTemplate(ts) && ValidTemplate(filled) && |settled| == |filled| == |ts| && i < |ts|
    requires forall k :: 0 <= k < |ts| ==> settled[k] == filled[k] || (settled[k] == ts[k] && filled[k].Text?)
    requires filled[i].Text? && !settled[i].Text?
    ensures Render(settled) != Render(filled)
  {
    FilledMoreMeansFewerDollars(filled, settled);
  }

  lemma OneFormIsFilled(ts: seq<Token>, matches: seq<string>)
    requires ValidTemplate(ts) && OneFormEach(ts, matches)
    ensures Settle(ts, matches, 1) == FillAll(ts, matches)
  {
    SettledTokens(ts, matches);
    forall i | 0 <= i < |ts|
      ensures Outcome(ts[i], ts, matches) == Fill(ts[i], matches)
    {
      assert ts[i] in ts;
    }
  }

  lemma TwoFormsDiffer(ts: seq<Token>, matches: seq<string>)
    requires ValidTemplate(ts) && CleanCaptures(matches) && !OneFormEach(ts, matches)
    ensures Render(Settle(ts, matches, 1)) != Render(FillAll(ts, matches))
  {
    SettledTokens(ts, matches);
    FillKeepsValid(ts, matches);
    var d :| 1 <= d < |matches| && Plain(d) in ts && Under(d) in ts;
    var i :| 0 <= i < |ts| && ts[i] == Plain(d);
    LeftoverDiffers(ts, Settle(ts, matches, 1), FillAll(ts, matches), i);
  }

  /** The sequential in-place loop is simultaneous substitution exactly when no captured
      placeholder is used in both of its forms. */
  lemma LoopIsSubstitution(ts: seq<Token>, matches: seq<string>)
    requires ValidTemplate(ts) && CleanCaptures(matches)
    ensures ReplaceGroups(Render(ts), matches, 1) == Substitute(ts, matches) <==> OneFormEach(ts, matches)
  {
    LoopSettles(ts, matches, 1);
    if OneFormEach(ts, matches) {
      OneFormIsFilled(ts, matches);
    } else {
      TwoFormsDiffer(ts, matches);
    }
  }

  /** With both forms of `$1` in the template, the plain one survives. */
  lemma BothFormsLeaveAPlaceholder(capture: string)
    requires Clean(capture)
    ensures ReplaceGroups(Render([Plain(1), Under(1)]), ["", capture], 1)
         == Render([Plain(1), Text(ReplaceAll(capture, "-", "_"))])
  {
    var ts, matches := [Plain(1), Under(1)], ["", capture];
    LoopSettles(ts, matches, 1);
    SettledTokens(ts, matches);
    assert Settle(ts, matches, 1) == [Plain(1), Text(ReplaceAll(capture, "-", "_"))];
  }

  lemma {:induction false} LoopSkipsText(text: string, matches: seq<string>, i: nat)
    requires '$' !in text
    ensures ReplaceGroups(text, matches, i) == text
    decreases |matches| - i
  {
    if i < |matches| {
      var p := Placeholder(i);
      assert text + "" == text;
      ContainsSkips(text, "", p + UNDERSCORED);
      ReplaceSkips(text, "", p, matches[i]);
      LoopSkipsText(text, matches, i + 1);
    }
  }

  /** With ten or more captures, `$10` is read as `$1` followed by `0`. */
  lemma TenthCaptureIsMisread(matches: seq<string>)
    requires |matches| > 10 && Clean(matches[1])
    ensures ReplaceGroups("$10", matches, 1) == matches[1] + "0"
  {
    assert Placeholder(1) == "$1";
    assert "$10" == "$1" + "0" && "$10"[2..] == "0";
    assert ReplaceGroup("$10", 1, matches[1]) == matches[1] + "0";
    LoopSkipsText(matches[1] + "0", matches, 2);
  }

  /** A capture that looks like a later placeholder is expanded again. */
  lemma CapturesAreExpandedAgain()
    ensures ReplaceGroups("$1", ["", "$2", "x"], 1) == "x"
  {
    assert Placeholder(1) == "$1" && Placeholder(2) == "$2";
    assert "$1"[2..] == "" && "$2"[2..] == "";
    assert ReplaceGroup("$1", 1, "$2") == "$2";
    assert ReplaceGroup("$2", 2, "x") == "x";
    var m := ["", "$2", "x"];
    assert ReplaceGroups("$1", m, 1) == ReplaceGroups("$2", m, 2) == ReplaceGroups("x", m, 3);
  }
}
