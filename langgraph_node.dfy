/** The rule-based parts of `langgraph_node.py`: the label vote over the
    metadata of similar logs, the gate of the final decision step, and the
    clean-up of code fences around a model reply. */
module LanggraphNode {
  import opened Text
  import opened Python

  /** The two keys read from a similar log's metadata; `None` when absent. */
  datatype LogMeta = LogMeta(labelValue: Option<Value>, reasonValue: Option<Value>)

  /** The graph state; `None` stands for a key that is not set. */
  datatype TraceState = TraceState(
    traceId: string,
    cleanedTrace: string,
    similarLogs: seq<string>,
    similarMetadata: seq<LogMeta>,
    llmOutput: Option<string>,
    decision: Option<string>,
    reason: Option<string>)

  // ---------------------------------------------------------------------
  // The label vote
  // ---------------------------------------------------------------------

  /** `meta.get("label", "unknown").lower()`; a label that is not a string
      has no `lower` and raises `AttributeError`. */
  function LabelOf(meta: LogMeta): Outcome<string> {
    match meta.labelValue
    case None => Ok("unknown")
    case Some(VStr(s)) => Ok(Lower(s))
    case Some(_) => Raised(AttributeError)
  }

  /** The keys of `label_counts`. */
  predicate Known(vote: string) {
    vote == "anomaly" || vote == "suspicious" || vote == "normal" || vote == "unknown"
  }

  /** The label one metadata entry votes for, or the exception it raises:
      `label_counts[label] += 1` fails with `KeyError` for any other label. */
  function Vote(meta: LogMeta): (r: Outcome<string>)
    ensures r.Ok? ==> Known(r.value) && LabelOf(meta) == r
  {
    match LabelOf(meta)
    case Raised(e) => Raised(e)
    case Ok(l) => if Known(l) then Ok(l) else Raised(KeyError(l))
  }

  function VoteFn(): LogMeta -> Outcome<string> {
    m => Vote(m)
  }

  /** `label_counts` */
  datatype LabelCounts = LabelCounts(anomaly: nat, suspicious: nat, normal: nat, unknown: nat)

  /** The counts of a list of known labels. */
  function CountsOf(labels: seq<string>): LabelCounts {
    var m := multiset(labels);
    LabelCounts(m["anomaly"], m["suspicious"], m["normal"], m["unknown"])
  }

  /** `reasons`: one entry per label other than `unknown`, in order. */
  function ReasonsOf(labels: seq<string>): seq<string> {
    if labels == [] then []
    else
      var l := labels[|labels| - 1];
      ReasonsOf(labels[..|labels| - 1]) + if l != "unknown" then ["유사 로그 라벨: " + l] else []
  }

  /** The counts and reasons the loop of `llm_judgment` builds, or the first
      exception. */
  function Tally(metas: seq<LogMeta>): Outcome<(LabelCounts, seq<string>)> {
    match MapAll(metas, VoteFn())
    case Raised(e) => Raised(e)
    case Ok(labels) => Ok((CountsOf(labels), ReasonsOf(labels)))
  }

  /** The loop of `llm_judgment` over `similar_metadata` (lines 124-130). */
  method CountLabels(metas: seq<LogMeta>) returns (r: Outcome<(LabelCounts, seq<string>)>)
    ensures r == Tally(metas)
  {
    var counts := LabelCounts(0, 0, 0, 0);
    var reasons: seq<string> := [];
    ghost var labels: seq<string> := [];
    var i := 0;
    while i < |metas|
      invariant 0 <= i <= |metas|
      invariant MapAll(metas[..i], VoteFn()) == Ok(labels)
      invariant counts == CountsOf(labels) && reasons == ReasonsOf(labels)
    {
      var meta := metas[i];
      VoteStep(metas, i, labels);
      var l := LabelOf(meta);
      if l.Raised? || !Known(l.value) {
        TallyRaised(metas, i);
        return if l.Raised? then Raised(l.error) else Raised(KeyError(l.value));
      }
      var vote := l.value;
      CountsSnoc(labels, vote);
      if vote == "anomaly" {
        counts := counts.(anomaly := counts.anomaly + 1);
      } else if vote == "suspicious" {
        counts := counts.(suspicious := counts.suspicious + 1);
      } else if vote == "normal" {
        counts := counts.(normal := counts.normal + 1);
      } else {
        counts := counts.(unknown := counts.unknown + 1);
      }
      if vote != "unknown" {
        reasons := reasons + ["유사 로그 라벨: " + vote];
      }
      labels := labels + [vote];
      i := i + 1;
    }
    assert metas[..i] == metas;
    return Ok((counts, reasons));
  }

  lemma VoteStep(metas: seq<LogMeta>, i: nat, labels: seq<string>)
    requires i < |metas| && MapAll(metas[..i], VoteFn()) == Ok(labels)
    ensures var v := Vote(metas[i]);
      MapAll(metas[..i + 1], VoteFn()) == if v.Raised? then Raised(v.error) else Ok(labels + [v.value])
  {
    MapAllSnoc(metas[..i], metas[i], VoteFn());
    assert metas[..i] + [metas[i]] == metas[..i + 1];
  }

  lemma TallyRaised(metas: seq<LogMeta>, i: nat)
    requires i < |metas| && MapAll(metas[..i + 1], VoteFn()).Raised?
    ensures Tally(metas) == Raised(MapAll(metas[..i + 1], VoteFn()).error)
  {
    assert metas == metas[..i + 1] + metas[i + 1..];
    MapAllRaised(metas[..i + 1], metas[i + 1..], VoteFn());
  }

  lemma CountsSnoc(labels: seq<string>, v: string)
    ensures var c, c' := CountsOf(labels), CountsOf(labels + [v]);
      && c'.anomaly == c.anomaly + (if v == "anomaly" then 1 else 0)
      && c'.suspicious == c.suspicious + (if v == "suspicious" then 1 else 0)
      && c'.normal == c.normal + (if v == "normal" then 1 else 0)
      && c'.unknown == c.unknown + (if v == "unknown" then 1 else 0)
    ensures ReasonsOf(labels + [v]) == ReasonsOf(labels) + if v != "unknown" then ["유사 로그 라벨: " + v] else []
  {
    assert multiset(labels + [v]) == multiset(labels) + multiset{v};
    assert (labels + [v])[..|labels|] == labels;
  }
  /** The number of entries whose lowercased label is `l`. */
  function CountLabel(metas: seq<LogMeta>, l: string): nat {
    if metas == [] then 0
    else CountLabel(metas[..|metas| - 1], l) + if LabelOf(metas[|metas| - 1]) == Ok(l) then 1 else 0
  }

  lemma {:induction false} CountsOfLabels(metas: seq<LogMeta>, labels: seq<string>)
    requires MapAll(metas, VoteFn()) == Ok(labels)
    ensures var c := CountsOf(labels);
      && c.anomaly == CountLabel(metas, "anomaly") && c.suspicious == CountLabel(metas, "suspicious")
      && c.normal == CountLabel(metas, "normal") && c.unknown == CountLabel(metas, "unknown")
      && c.anomaly + c.suspicious + c.normal + c.unknown == |metas|
  {
    if metas != [] {
      var init := metas[..|metas| - 1];
      var m := metas[|metas| - 1];
      var f := VoteFn();
      match MapAll(init, f)
      case Ok(ls) =>
        assert f(m) == Vote(m);
        var l := Vote(m).value;
        assert labels == ls + [l];
        CountsOfLabels(init, ls);
        assert multiset(labels) == multiset(ls) + multiset{l};
    }
  }

  /** `label_counts` counts each lowercased label, a missing one as
      `unknown`, and its values add up to the number of entries. */
  lemma TallyCounts(metas: seq<LogMeta>)
    requires Tally(metas).Ok?
    ensures var c := Tally(metas).value.0;
      && c.anomaly == CountLabel(metas, "anomaly") && c.suspicious == CountLabel(metas, "suspicious")
      && c.normal == CountLabel(metas, "normal") && c.unknown == CountLabel(metas, "unknown")
      && c.anomaly + c.suspicious + c.normal + c.unknown == |metas|
  {
    CountsOfLabels(metas, MapAll(metas, VoteFn()).value);
  }

  /** The vote fails exactly when some entry's label is not a string or
      lowercases to something other than the four known labels; such a
      label raises `KeyError` with the lowercased label. */
  lemma TallyFails(metas: seq<LogMeta>)
    ensures Tally(metas).Raised? <==> exists m :: m in metas && (LabelOf(m).Raised? || !Known(LabelOf(m).value))
    ensures forall m :: m in metas && LabelOf(m).Ok? && !Known(LabelOf(m).value) ==> Vote(m) == Raised(KeyError(LabelOf(m).value))
  {
    var f := VoteFn();
    MapAllSpec(metas, f);
    assert forall i :: 0 <= i < |metas| ==> f(metas[i]) == Vote(metas[i]);
    if Tally(metas).Raised? {
      var i :| 0 <= i < |metas| && f(metas[i]).Raised?;
      assert metas[i] in metas;
    }
  }

  lemma {:induction false} ReasonsEmpty(labels: seq<string>)
    ensures ReasonsOf(labels) == [] <==> forall i :: 0 <= i < |labels| ==> labels[i] == "unknown"
  {
    if labels != [] {
      var init := labels[..|labels| - 1];
      var last := labels[|labels| - 1];
      ReasonsEmpty(init);
      assert forall i :: 0 <= i < |init| ==> init[i] == labels[i];
      if last != "unknown" {
        assert ReasonsOf(labels) == ReasonsOf(init) + ["유사 로그 라벨: " + last];
        assert |ReasonsOf(labels)| > 0;
      } else {
        assert ReasonsOf(labels) == ReasonsOf(init);
      }
    }
  }

  lemma {:induction false} ReasonsAppend(a: seq<string>, b: seq<string>)
    ensures ReasonsOf(a + b) == ReasonsOf(a) + ReasonsOf(b)
  {
    if b == [] {
      assert a + b == a;
    } else {
      var init := b[..|b| - 1];
      ReasonsAppend(a, init);
      assert (a + b)[..|a + b| - 1] == a + init;
    }
  }

  /** The reasons follow the labels: a label contributes its entry, if any,
      between the entries of the labels before it and after it. */
  lemma ReasonsOrder(a: seq<string>, l: string, b: seq<string>)
    ensures ReasonsOf(a + [l] + b)
      == ReasonsOf(a) + (if l != "unknown" then ["유사 로그 라벨: " + l] else []) + ReasonsOf(b)
  {
    ReasonsAppend(a + [l], b);
    assert (a + [l])[..|a|] == a;
  }

  lemma {:induction false} ReasonsCount(labels: seq<string>)
    ensures |ReasonsOf(labels)| + multiset(labels)["unknown"] == |labels|
  {
    if labels != [] {
      var init := labels[..|labels| - 1];
      ReasonsCount(init);
      assert labels == init + [labels[|labels| - 1]];
      assert multiset(labels) == multiset(init) + multiset{labels[|labels| - 1]};
    }
  }

  /** One reason entry per label that is not `unknown`. */
  lemma TallyReasonCount(metas: seq<LogMeta>)
    requires Tally(metas).Ok?
    ensures |Tally(metas).value.1| + Tally(metas).value.0.unknown == |metas|
  {
    MapAllSpec(metas, VoteFn());
    ReasonsCount(MapAll(metas, VoteFn()).value);
  }

  /** There is a reason entry unless every label is `unknown` (or missing). */
  lemma TallyReasons(metas: seq<LogMeta>)
    requires Tally(metas).Ok?
    ensures Tally(metas).value.1 == [] <==> forall m :: m in metas ==> LabelOf(m) == Ok("unknown")
  {
    var f := VoteFn();
    MapAllSpec(metas, f);
    var labels := MapAll(metas, f).value;
    ReasonsEmpty(labels);
    forall i | 0 <= i < |metas| ensures LabelOf(metas[i]) == Ok(labels[i]) {
      assert f(metas[i]) == Vote(metas[i]);
    }
    if forall m :: m in metas ==> LabelOf(m) == Ok("unknown") {
      forall i | 0 <= i < |labels| ensures labels[i] == "unknown" {
        assert metas[i] in metas;
      }
    } else {
      var m :| m in metas && LabelOf(m) != Ok("unknown");
      var i :| 0 <= i < |metas| && metas[i] == m;
      assert labels[i] != "unknown";
    }
  }

  /** `anomaly > suspicious > normal`, and `suspicious` when no label is
      any of these. */
  function BaseDecision(c: LabelCounts): string {
    if c.anomaly > 0 then "anomaly"
    else if c.suspicious > 0 then "suspicious"
    else if c.normal > 0 then "normal"
    else "suspicious"
  }

  /** The priority rule in terms of the entries' labels. */
  lemma BasePriority(metas: seq<LogMeta>)
    requires Tally(metas).Ok?
    ensures var d := BaseDecision(Tally(metas).value.0);
      var has := (l: string) => exists m :: m in metas && LabelOf(m) == Ok(l);
      && (d == "anomaly" <==> has("anomaly"))
      && (d == "suspicious" <==> !has("anomaly") && (has("suspicious") || !has("normal")))
      && (d == "normal" <==> !has("anomaly") && !has("suspicious") && has("normal"))
  {
    TallyCounts(metas);
    forall l ensures CountLabel(metas, l) > 0 <==> exists m :: m in metas && LabelOf(m) == Ok(l) {
      CountLabelPositive(metas, l);
    }
  }

  lemma {:induction false} CountLabelPositive(metas: seq<LogMeta>, l: string)
    ensures CountLabel(metas, l) > 0 <==> exists m :: m in metas && LabelOf(m) == Ok(l)
  {
    if metas != [] {
      var init := metas[..|metas| - 1];
      CountLabelPositive(init, l);
      assert metas == init + [metas[|metas| - 1]];
    }
  }

  /** `str(label_counts)` */
  function CountsRepr(c: LabelCounts): string {
    "{'anomaly': " + IntToString(c.anomaly) + ", 'suspicious': " + IntToString(c.suspicious)
    + ", 'normal': " + IntToString(c.normal) + ", 'unknown': " + IntToString(c.unknown) + "}"
  }

  /** The `" / "`-joined reason: the distribution, then the reasons when there
      are any. */
  function ReasonText(c: LabelCounts, reasons: seq<string>): string {
    var parts := ["유사 로그 라벨 분포: " + CountsRepr(c)]
      + if reasons != [] then ["유사 로그 사유: " + Join(reasons, " | ")] else [];
    Join(parts, " / ")
  }

  /** The reason is the distribution alone when there are no reasons, and the
      distribution, `" / "` and the `" | "`-joined reasons otherwise. */
  lemma ReasonTextParts(c: LabelCounts, reasons: seq<string>)
    ensures reasons == [] ==> ReasonText(c, reasons) == "유사 로그 라벨 분포: " + CountsRepr(c)
    ensures reasons != [] ==>
      ReasonText(c, reasons) == "유사 로그 라벨 분포: " + CountsRepr(c) + " / " + ("유사 로그 사유: " + Join(reasons, " | "))
  {
    var parts := ["유사 로그 라벨 분포: " + CountsRepr(c)]
      + if reasons != [] then ["유사 로그 사유: " + Join(reasons, " | ")] else [];
    if reasons != [] {
      assert parts[1..] == ["유사 로그 사유: " + Join(reasons, " | ")];
      assert Join(parts, " / ") == parts[0] + " / " + Join(parts[1..], " / ");
    }
  }

  /** The outcome of `llm_judgment`. */
  datatype Judgment =
    | AsksModel                     // no similar logs: the model is asked (not modelled)
    | Decided(state: TraceState)    // the label vote decided
    | Fails(error: Error)           // the label vote raised

  /** `llm_judgment(state)` */
  function LlmJudgment(state: TraceState): (r: Judgment)
    ensures r.AsksModel? <==> state.similarLogs == []
    ensures state.similarLogs != [] ==> (r.Decided? <==> Tally(state.similarMetadata).Ok?)
    ensures r.Fails? ==> Tally(state.similarMetadata) == Raised(r.error)
    ensures r.Decided? ==> Tally(state.similarMetadata).Ok?
    ensures r.Decided? ==>
      var t := Tally(state.similarMetadata).value;
      && r.state == state.(llmOutput := r.state.llmOutput, decision := Some(BaseDecision(t.0)), reason := Some(ReasonText(t.0, t.1)))
      && r.state.llmOutput == Some("유사 로그 기반 보조 판단: " + BaseDecision(t.0))
  {
    if state.similarLogs == [] then AsksModel
    else
      match Tally(state.similarMetadata)
      case Raised(e) => Fails(e)
      case Ok((c, reasons)) =>
        var base := BaseDecision(c);
        Decided(state.(llmOutput := Some("유사 로그 기반 보조 판단: " + base),
                       decision := Some(base),
                       reason := Some(ReasonText(c, reasons))))
  }

  // ---------------------------------------------------------------------
  // The final decision gate
  // ---------------------------------------------------------------------

  /** `zip(a, b)` */
  function Zip<A, B>(a: seq<A>, b: seq<B>): (r: seq<(A, B)>)
    ensures |r| == if |a| < |b| then |a| else |b|
    ensures forall i :: 0 <= i < |r| ==> r[i] == (a[i], b[i])
  {
    if a == [] || b == [] then [] else [(a[0], b[0])] + Zip(a[1..], b[1..])
  }

  /** `xs[:5]` */
  function Take5<T>(xs: seq<T>): seq<T> {
    if |xs| <= 5 then xs else xs[..5]
  }

  /** The outcome of `final_decision`. */
  datatype FinalStep =
    | Unchanged(state: TraceState)
    | Rejudge(pairs: seq<(string, LogMeta)>)   // the model is asked again, shown these pairs

  /** `final_decision(state)` up to the prompt: a decision other than
      `suspicious` passes the state through; otherwise at most five similar
      logs, each with its metadata, go into the new prompt. */
  function FinalDecision(state: TraceState): FinalStep {
    var decision := Lower(state.decision.GetOr("unknown"));
    if decision != "suspicious" then Unchanged(state)
    else
      var logs := Take5(state.similarLogs);
      var metas := if logs != [] then Take5(state.similarMetadata) else [];
      Rejudge(Zip(logs, metas))
  }

  /** The gate passes the state through unless the lowercased decision is
      `suspicious`; the re-judgement sees at most five pairs, matched by
      position, and none when there are no similar logs. */
  lemma FinalDecisionGate(state: TraceState)
    ensures (Lower(state.decision.GetOr("unknown")) != "suspicious") <==> FinalDecision(state) == Unchanged(state)
    ensures FinalDecision(state).Rejudge? ==>
      var p := FinalDecision(state).pairs;
      && |p| <= 5 && |p| <= |state.similarLogs| && |p| <= |state.similarMetadata|
      && (|p| == 5 || |p| == |state.similarLogs| || |p| == |state.similarMetadata|)
      && (state.similarLogs == [] ==> p == [])
      && forall i :: 0 <= i < |p| ==> p[i] == (state.similarLogs[i], state.similarMetadata[i])
  {
  }

  /** `s.lower()` keeps a string without upper-case ASCII letters. */
  lemma LowerKeeps(s: string)
    requires forall i :: 0 <= i < |s| ==> !('A' <= s[i] <= 'Z')
    ensures Lower(s) == s
  {
  }

  /** Every decision the vote makes is already in lower case. */
  lemma BaseLower(c: LabelCounts)
    ensures Lower(BaseDecision(c)) == BaseDecision(c)
  {
    var d := BaseDecision(c);
    if d == "anomaly" {
      LowerKeeps("anomaly");
    } else if d == "suspicious" {
      LowerKeeps("suspicious");
    } else {
      LowerKeeps("normal");
    }
  }

  /** After the vote, only a `suspicious` decision reaches the model again. */
  lemma VoteThenGate(state: TraceState)
    requires LlmJudgment(state).Decided?
    ensures var d := BaseDecision(Tally(state.similarMetadata).value.0);
      FinalDecision(LlmJudgment(state).state).Unchanged? <==> d != "suspicious"
  {
    var c := Tally(state.similarMetadata).value.0;
    var s := LlmJudgment(state).state;
    assert s.decision == Some(BaseDecision(c));
    BaseLower(c);
  }

  // ---------------------------------------------------------------------
  // Code fences around a reply
  // ---------------------------------------------------------------------

  predicate IsAsciiLetter(c: char) {
    'a' <= c <= 'z' || 'A' <= c <= 'Z'
  }

  /** The length of the longest prefix of ASCII letters. */
  function LetterRun(s: string): (n: nat)
    ensures n <= |s|
    ensures forall i :: 0 <= i < n ==> IsAsciiLetter(s[i])
    ensures n == |s| || !IsAsciiLetter(s[n])
  {
    if s != [] && IsAsciiLetter(s[0]) then 1 + LetterRun(s[1..]) else 0
  }

  /** `re.sub(r"^```[a-zA-Z]*\n?", "", s)` */
  function DropOpeningFence(s: string): string {
    if StartsWith(s, "```") then
      var rest := s[3..];
      var after := rest[LetterRun(rest)..];
      if after != [] && after[0] == '\n' then after[1..] else after
    else s
  }

  /** `re.sub(r"\n?```$", "", s)` for a stripped `s`, which has no newline at
      its end for `$` to stop before. */
  function DropClosingFence(s: string): string {
    if EndsWith(s, "\n```") then s[..|s| - 4]
    else if EndsWith(s, "```") then s[..|s| - 3]
    else s
  }

  /** The two substitutions applied to a reply (lines 109-110 and 198-199). */
  function StripFences(text: string): string {
    DropClosingFence(Strip(DropOpeningFence(Strip(text))))
  }

  /** The opening substitution removes `` ``` ``, a run of ASCII letters and
      at most one newline from the front, and nothing when there is no fence. */
  lemma OpeningFenceShape(s: string)
    ensures !StartsWith(s, "```") ==> DropOpeningFence(s) == s
    ensures StartsWith(s, "```") ==> exists lang, nl ::
      && (forall i :: 0 <= i < |lang| ==> IsAsciiLetter(lang[i]))
      && (nl == "" || nl == "\n")
      && s == "```" + lang + nl + DropOpeningFence(s)
      && (nl == "" ==> DropOpeningFence(s) == [] || (DropOpeningFence(s)[0] != '\n' && !IsAsciiLetter(DropOpeningFence(s)[0])))
  {
    if StartsWith(s, "```") {
      var rest := s[3..];
      var n := LetterRun(rest);
      var lang := rest[..n];
      var after := rest[n..];
      assert s == "```" + rest;
      assert rest == lang + after;
      if after != [] && after[0] == '\n' {
        assert after == "\n" + after[1..];
        assert s == "```" + lang + "\n" + after[1..];
      } else {
        assert s == "```" + lang + "" + after;
      }
    }
  }

  /** The closing substitution removes `` ``` `` and the newline before it,
      if any, from the end, and nothing when there is no fence. */
  lemma ClosingFenceShape(s: string)
    ensures exists tail :: (tail == "" || tail == "```" || tail == "\n```") && s == DropClosingFence(s) + tail
    ensures !EndsWith(s, "```") <==> DropClosingFence(s) == s
    ensures EndsWith(s, "```") && !EndsWith(s, "\n```") ==> s == DropClosingFence(s) + "```"
    ensures EndsWith(s, "\n```") ==> s == DropClosingFence(s) + "\n```"
  {
    if EndsWith(s, "\n```") {
      assert s == s[..|s| - 4] + s[|s| - 4..];
    } else if EndsWith(s, "```") {
      var tail := "```";
      assert DropClosingFence(s) == s[..|s| - 3];
      assert s == DropClosingFence(s) + s[|s| - 3..];
      assert tail == "```" && s == DropClosingFence(s) + tail;
    } else {
      assert s == s + "";
    }
  }

  /** A reply with no fence is only stripped. */
  lemma StripFencesNoFence(text: string)
    requires !StartsWith(Strip(text), "```") && !EndsWith(Strip(text), "```")
    ensures StripFences(text) == Strip(text)
  {
    StripIdempotent(text);
  }

  /** `(a + b)` split back at `|a|`. */
  lemma Cut(a: string, b: string)
    ensures (a + b)[..|a|] == a && (a + b)[|a|..] == b
  {
  }

  /** The closing fence of a stripped body followed by a fence. */
  lemma ClosingOf(body: string)
    requires Strip(body) == body
    ensures DropClosingFence(Strip(body + "\n```")) == body
  {
    var z := body + "\n```";
    if body == [] {
      assert z == "\n```";
      assert Strip(z) == "```" by {
        assert TrimStart(z) == TrimStart(z[1..]);
        assert z[1..] == "```";
      }
    } else {
      assert !IsSpace(body[0]) && !IsSpace(body[|body| - 1]) by {
        assert body == Strip(body);
      }
      assert z[0] == body[0] && z[|z| - 1] == '`';
      StripNoop(z);
      Cut(body, "\n```");
    }
  }

  /** The opening fence with a language tag and its newline. */
  lemma OpeningOf(lang: string, rest: string)
    requires forall i :: 0 <= i < |lang| ==> IsAsciiLetter(lang[i])
    ensures DropOpeningFence("```" + (lang + ("\n" + rest))) == rest
  {
    var y := "\n" + rest;
    var x := lang + y;
    Cut("```", x);
    LetterRunOf(lang, y);
    Cut(lang, y);
    Cut("\n", rest);
  }

  /** A fenced block `lang` + newline + body + newline gives back the body,
      for a body with no white space at either end. */
  lemma StripFencesBlock(lang: string, body: string)
    requires forall i :: 0 <= i < |lang| ==> IsAsciiLetter(lang[i])
    requires Strip(body) == body
    ensures StripFences("```" + lang + "\n" + body + "\n```") == body
  {
    var z := body + "\n```";
    var text := "```" + (lang + ("\n" + z));
    assert "```" + lang + "\n" + body + "\n```" == text;
    assert text[0] == '`' && text[|text| - 1] == '`';
    StripNoop(text);
    OpeningOf(lang, z);
    ClosingOf(body);
  }

  lemma {:induction false} LetterRunOf(letters: string, rest: string)
    requires forall i :: 0 <= i < |letters| ==> IsAsciiLetter(letters[i])
    requires rest != [] && !IsAsciiLetter(rest[0])
    ensures LetterRun(letters + rest) == |letters|
  {
    if letters != [] {
      assert (letters + rest)[1..] == letters[1..] + rest;
      LetterRunOf(letters[1..], rest);
    }
  }
}
