/**
  The output guardrail and the streaming inspector in front of it. The inspector holds back a
  bounded tail of the stream, redacts it in place and releases only what precedes it.
 */
module Streaming {
  import opened Wrappers
  import opened Redaction

  datatype Action = Allow | Block | Redacted

  datatype Decision = Decision(action: Action, policy: string, transformed: Option<string>)

  function Utf8Size(text: string): nat {
    if text == "" then 0
    else
      var c := text[0] as int;
      (if c < 0x80 then 1 else if c < 0x800 then 2 else if c < 0x1_0000 then 3 else 4)
      + Utf8Size(text[1..])
  }

  /** How many characters of the text lie at or beyond a code point. */
  ghost function Beyond(text: string, limit: int): nat {
    if text == "" then 0 else (if text[0] as int >= limit then 1 else 0) + Beyond(text[1..], limit)
  }

  /** One byte per character, and one more for each of the three limits of UTF-8 it lies beyond. */
  lemma {:induction false} Utf8SizeCounts(text: string)
    ensures Utf8Size(text) == |text| + Beyond(text, 0x80) + Beyond(text, 0x800) + Beyond(text, 0x1_0000)
  {
    if text != "" {
      Utf8SizeCounts(text[1..]);
    }
  }

  /** `secrets` and `pii` are pattern lists; those the program ships are in ShippedPatterns. */
  datatype OutputGuardrail = OutputGuardrail(maxOutputBytes: int, secrets: seq<Regex>, pii: seq<Regex>) {

    /** Evaluation of a plain-text payload. A secret pre-empts the PII check. */
    function Evaluate(text: string): Decision {
      if Utf8Size(text) > maxOutputBytes then Decision(Block, "max_output", None)
      else if exists p | p in secrets :: Matches(p, text) then
        Decision(Redacted, "secret_scan", Some(Redact(secrets, text)))
      else if exists p | p in pii :: Matches(p, text) then
        Decision(Redacted, "pii", Some(Redact(pii, text)))
      else Decision(Allow, "output", None)
    }
  }

  /** The text released, the tail held back, and the decision behind both. */
  datatype Released = Released(emit: string, buffer: string, decision: Decision)

  function Release(engine: OutputGuardrail, holdback: nat, combined: string, final: bool): Released {
    var decision := engine.Evaluate(combined);
    if decision.action.Block? then Released("", "", decision)
    else
      var text := if decision.action.Redacted? && decision.transformed.Some?
                  then decision.transformed.value else combined;
      if final then Released(text, "", decision)
      else if |text| <= holdback then Released("", text, decision)
      else Released(text[..|text| - holdback], text[|text| - holdback..], decision)
  }

  datatype ValueError = ValueError

  class StreamingOutputInspector {
    const engine: OutputGuardrail
    const holdback: nat
    var buffer: string

    constructor (engine: OutputGuardrail, holdback: nat)
      ensures this.engine == engine && this.holdback == holdback && buffer == ""
    {
      this.engine, this.holdback, buffer := engine, holdback, "";
    }

    static method Create(engine: OutputGuardrail, holdback: int)
      returns (r: Result<StreamingOutputInspector, ValueError>)
      ensures r.Failure? <==> holdback < 1
      ensures r.Success? ==>
        && fresh(r.value) && r.value.buffer == ""
        && r.value.engine == engine && r.value.holdback == holdback
    {
      if holdback < 1 {
        return Failure(ValueError);
      }
      var inspector := new StreamingOutputInspector(engine, holdback);
      return Success(inspector);
    }

    method Push(delta: string) returns (text: string, decision: Decision)
      modifies this
      ensures Released(text, buffer, decision) == Release(engine, holdback, old(buffer) + delta, false)
    {
      text, decision := ReleaseText(buffer + delta, false);
    }

    method Flush() returns (text: string, decision: Decision)
      modifies this
      ensures Released(text, buffer, decision) == Release(engine, holdback, old(buffer), true)
    {
      text, decision := ReleaseText(buffer, true);
      buffer := "";
    }

    method ReleaseText(combined: string, final: bool) returns (emit: string, decision: Decision)
      modifies this
      ensures Released(emit, buffer, decision) == Release(engine, holdback, combined, final)
    {
      decision := engine.Evaluate(combined);
      if decision.action.Block? {
        buffer := "";
        return "", decision;
      }
      var text := combined;
      if decision.action.Redacted? && decision.transformed.Some? {
        text := decision.transformed.value;
      }
      if final || |text| <= holdback {
        buffer := if final then "" else text;
        return if final then text else "", decision;
      }
      emit, buffer := text[..|text| - holdback], text[|text| - holdback..];
    }
  }

  /** What a caller has received when the stream ended, and whether a BLOCK ended it. */
  datatype Transcript = Transcript(emitted: string, blocked: bool)

  /** Push every delta, then flush; a BLOCK ends the stream. */
  function Stream(engine: OutputGuardrail, holdback: nat, buffer: string, deltas: seq<string>): Transcript
    decreases |deltas|
  {
    if deltas == [] then
      var last := Release(engine, holdback, buffer, true);
      Transcript(last.emit, last.decision.action.Block?)
    else
      var first := Release(engine, holdback, buffer + deltas[0], false);
      if first.decision.action.Block? then Transcript("", true)
      else
        var rest := Stream(engine, holdback, first.buffer, deltas[1..]);
        Transcript(first.emit + rest.emitted, rest.blocked)
  }

  /** The serving route's loop around the inspector. */
  method StreamThrough(inspector: StreamingOutputInspector, deltas: seq<string>)
    returns (emitted: string, blocked: bool)
    modifies inspector
    ensures Transcript(emitted, blocked)
         == Stream(inspector.engine, inspector.holdback, old(inspector.buffer), deltas)
  {
    hide Release;
    emitted, blocked := "", false;
    ghost var whole := Stream(inspector.engine, inspector.holdback, inspector.buffer, deltas);
    var i := 0;
    while i < |deltas|
      invariant 0 <= i <= |deltas|
      invariant var rest := Stream(inspector.engine, inspector.holdback, inspector.buffer, deltas[i..]);
                whole == Transcript(emitted + rest.emitted, rest.blocked)
    {
      assert deltas[i..][0] == deltas[i] && deltas[i..][1..] == deltas[i + 1..];
      ghost var rest := Stream(inspector.engine, inspector.holdback, inspector.buffer, deltas[i..]);
      var text, decision := inspector.Push(deltas[i]);
      if decision.action.Block? {
        assert emitted + "" == emitted;
        return emitted, true;
      }
      ghost var after := Stream(inspector.engine, inspector.holdback, inspector.buffer, deltas[i + 1..]);
      assert rest == Transcript(text + after.emitted, after.blocked);
      assert emitted + (text + after.emitted) == (emitted + text) + after.emitted;
      emitted := emitted + text;
      i := i + 1;
    }
    var remainder, decision := inspector.Flush();
    blocked := decision.action.Block?;
    emitted := emitted + remainder;
  }

  // --------------------------------------------------------------- buffer bound

  lemma BufferWithinHoldback(engine: OutputGuardrail, holdback: nat, combined: string)
    ensures |Release(engine, holdback, combined, false).buffer| <= holdback
    ensures var r := Release(engine, holdback, combined, false);
      r.emit != "" ==> |r.buffer| == holdback
  {
  }

  /** An evaluation ends the stream exactly when the text is too large, and then passes nothing on. */
  lemma BlockedExactly(engine: OutputGuardrail, holdback: nat, combined: string, final: bool)
    ensures var r := Release(engine, holdback, combined, final);
      && (r.decision.action.Block? <==>
            |combined| + Beyond(combined, 0x80) + Beyond(combined, 0x800) + Beyond(combined, 0x1_0000)
            > engine.maxOutputBytes)
      && (r.decision.action.Block? ==> r.emit == r.buffer == "")
  {
    Utf8SizeCounts(combined);
    hide Utf8Size, Beyond, Matches, Redact;
  }

  // ------------------------------------------------------- nothing secret is emitted

  /** A pattern whose shortest occurrence fits in the held-back tail plus one character. */
  ghost predicate Streamable(p: Regex, holdback: nat) {
    Inert(p) && p.edge.Anywhere? && forall k | 0 <= k < |p.alternatives| :: |p.alternatives[k]| <= holdback + 1
  }

  /** Evaluation never changes the text before its first bracket. */
  lemma ReleaseFront(engine: OutputGuardrail, holdback: nat, combined: string, final: bool, n: nat)
    requires !Release(engine, holdback, combined, final).decision.action.Block?
    requires var r := Release(engine, holdback, combined, final);
      n <= |r.emit + r.buffer| && BracketFree((r.emit + r.buffer)[..n])
    ensures var r := Release(engine, holdback, combined, final);
      && n <= |combined| && (r.emit + r.buffer)[..n] == combined[..n]
      && (n == |r.emit + r.buffer| ==> n == |combined|)
  {
    var r := Release(engine, holdback, combined, final);
    match r.decision.transformed {
      case None => assert r.emit + r.buffer == combined;
      case Some(text) =>
        assert r.emit + r.buffer == text;
        RedactFront(if r.decision.policy == "pii" then engine.pii else engine.secrets, combined, n);
    }
  }

  /** Whatever is emitted or kept after one evaluation is free of every secret pattern. */
  lemma ReleaseClean(engine: OutputGuardrail, holdback: nat, combined: string, final: bool, q: Regex)
    requires q in engine.secrets && Inert(q) && q.edge.Anywhere?
    ensures var r := Release(engine, holdback, combined, final); Clean(q, r.emit + r.buffer)
  {
    var r := Release(engine, holdback, combined, final);
    CleanIsNoMatch(q, combined);
    if r.decision.action.Block? {
      assert r.emit + r.buffer == "";
    } else if exists p :: p in engine.secrets && Matches(p, combined) {
      assert r.emit + r.buffer == Redact(engine.secrets, combined);
      RedactClean(engine.secrets, q, combined);
    } else if exists p :: p in engine.pii && Matches(p, combined) {
      assert r.emit + r.buffer == Redact(engine.pii, combined);
      RedactClean(engine.pii, q, combined);
    } else {
      assert r.emit + r.buffer == combined;
    }
  }

  /** A part of a clean text is clean. */
  lemma CleanPrefix(p: Regex, text: string, n: nat)
    requires n <= |text| && Clean(p, text)
    ensures Clean(p, text[..n])
  {
    forall at: nat | at <= n ensures !Opens(p, text[..n], at) {
      forall k | 0 <= k < |p.alternatives| ensures !Fits(p.alternatives[k], text[..n], at) {
        assert !Opens(p, text, at);
        var alt := p.alternatives[k];
        if at + |alt| <= n {
          assert text[at..at + |alt|] == text[..n][at..at + |alt|];
          FitsAgree(alt, text, at, text[..n], at);
        }
      }
    }
  }

  /**
    Whatever already went out cannot be continued into an occurrence that the held-back tail
    does not show: the tail has full length, or a redaction in it put a bracket there.
   */
  ghost predicate SeamGuarded(emitted: string, buffer: string, holdback: nat) {
    emitted == "" || |buffer| >= holdback || '[' in buffer
  }

  lemma ReleaseKeepsGuard(engine: OutputGuardrail, holdback: nat, emitted: string, buffer: string, delta: string)
    requires SeamGuarded(emitted, buffer, holdback)
    requires !Release(engine, holdback, buffer + delta, false).decision.action.Block?
    ensures var r := Release(engine, holdback, buffer + delta, false);
      SeamGuarded(emitted + r.emit, r.buffer, holdback)
  {
    var r := Release(engine, holdback, buffer + delta, false);
    if r.emit == "" {
      assert emitted + r.emit == emitted;
      var text := r.emit + r.buffer;
      assert text == r.buffer;
      var combined := buffer + delta;
      assert forall i | 0 <= i < |buffer| :: buffer[i] == combined[i];
      if '[' !in text {
        // Nothing was replaced, so the tail only grew.
        assert text[..|text|] == text;
        ReleaseFront(engine, holdback, combined, false, |text|);
        assert text == combined[..|combined|] == combined;
      }
    }
  }

  /** One step keeps "everything emitted so far, followed by the held-back tail, is clean". */
  lemma StepKeepsClean(
      engine: OutputGuardrail, holdback: nat, q: Regex, emitted: string, buffer: string, delta: string, final: bool)
    requires q in engine.secrets && Streamable(q, holdback)
    requires Clean(q, emitted + buffer) && SeamGuarded(emitted, buffer, holdback)
    requires !Release(engine, holdback, buffer + delta, final).decision.action.Block?
    ensures var r := Release(engine, holdback, buffer + delta, final);
      Clean(q, emitted + (r.emit + r.buffer))
  {
    var r := Release(engine, holdback, buffer + delta, final);
    var text := r.emit + r.buffer;
    ReleaseClean(engine, holdback, buffer + delta, final, q);
    forall at: nat | at <= |emitted + text| ensures !Opens(q, emitted + text, at) {
      if at >= |emitted| {
        OpensShift(q, emitted, text, at - |emitted|);
      } else {
        forall k | 0 <= k < |q.alternatives| ensures !Fits(q.alternatives[k], emitted + text, at) {
          SeamHoldsNothing(engine, holdback, q, k, emitted, buffer, delta, final, at);
        }
      }
    }
  }

  /** An occurrence across the seam would already have been visible in the old tail. */
  lemma SeamHoldsNothing(
      engine: OutputGuardrail, holdback: nat, q: Regex, k: nat,
      emitted: string, buffer: string, delta: string, final: bool, at: nat)
    requires Streamable(q, holdback) && k < |q.alternatives| && at < |emitted|
    requires Clean(q, emitted + buffer) && SeamGuarded(emitted, buffer, holdback)
    requires !Release(engine, holdback, buffer + delta, final).decision.action.Block?
    ensures var r := Release(engine, holdback, buffer + delta, final);
      !Fits(q.alternatives[k], emitted + (r.emit + r.buffer), at)
  {
    var r := Release(engine, holdback, buffer + delta, final);
    var text := r.emit + r.buffer;
    var alt := q.alternatives[k];
    var end := at + |alt|;
    assert !Opens(q, emitted + buffer, at);
    if end <= |emitted + text| {
      var n := if end <= |emitted| then 0 else end - |emitted|;
      if BracketFree(text[..n]) {
        ReleaseFront(engine, holdback, buffer + delta, final, n);
        var combined := buffer + delta;
        forall i | 0 <= i < n ensures combined[i] != '[' {
          assert text[..n][i] == combined[..n][i];
        }
        assert forall i | 0 <= i < |buffer| :: buffer[i] == combined[i];
        assert n <= |buffer|;
        assert text[..n] == buffer[..n];
        assert (emitted + text)[..|emitted| + n] == emitted + text[..n] == (emitted + buffer)[..|emitted| + n];
        assert (emitted + text)[at..end] == (emitted + text)[..|emitted| + n][at..end]
            == (emitted + buffer)[at..end];
        FitsAgree(alt, emitted + text, at, emitted + buffer, at);
      } else {
        var i :| 0 <= i < n && text[..n][i] == '[';
        assert (emitted + text)[|emitted| + i] == '[';
        assert '[' !in q.alternatives[k][|emitted| + i - at];
      }
    }
  }

  /** What holds between two pushes: all that is out or held back is clean, with a guarded seam. */
  ghost predicate Safe(q: Regex, holdback: nat, emitted: string, buffer: string) {
    Clean(q, emitted + buffer) && SeamGuarded(emitted, buffer, holdback)
  }

  lemma SafeStep(
      engine: OutputGuardrail, holdback: nat, q: Regex, emitted: string, buffer: string, delta: string)
    requires q in engine.secrets && Streamable(q, holdback) && Safe(q, holdback, emitted, buffer)
    requires !Release(engine, holdback, buffer + delta, false).decision.action.Block?
    ensures var r := Release(engine, holdback, buffer + delta, false);
      Safe(q, holdback, emitted + r.emit, r.buffer)
  {
    var r := Release(engine, holdback, buffer + delta, false);
    StepKeepsClean(engine, holdback, q, emitted, buffer, delta, false);
    ReleaseKeepsGuard(engine, holdback, emitted, buffer, delta);
    assert emitted + (r.emit + r.buffer) == (emitted + r.emit) + r.buffer;
  }

  lemma SafeFlush(engine: OutputGuardrail, holdback: nat, q: Regex, emitted: string, buffer: string)
    requires q in engine.secrets && Streamable(q, holdback) && Safe(q, holdback, emitted, buffer)
    ensures Clean(q, emitted) && Clean(q, emitted + Release(engine, holdback, buffer, true).emit)
  {
    CleanPrefix(q, emitted + buffer, |emitted|);
    assert (emitted + buffer)[..|emitted|] == emitted;
    assert emitted + "" == emitted && buffer + "" == buffer;
    var last := Release(engine, holdback, buffer, true);
    if !last.decision.action.Block? {
      StepKeepsClean(engine, holdback, q, emitted, buffer, "", true);
      assert last.emit + last.buffer == last.emit;
    }
  }

  lemma {:induction false} StreamKeepsClean(
      engine: OutputGuardrail, holdback: nat, q: Regex, emitted: string, buffer: string, deltas: seq<string>)
    requires q in engine.secrets && Streamable(q, holdback) && Safe(q, holdback, emitted, buffer)
    ensures Clean(q, emitted + Stream(engine, holdback, buffer, deltas).emitted)
    decreases |deltas|
  {
    SafeFlush(engine, holdback, q, emitted, buffer);
    if deltas != [] {
      var first := Release(engine, holdback, buffer + deltas[0], false);
      if first.decision.action.Block? {
        assert emitted + "" == emitted;
      } else {
        SafeStep(engine, holdback, q, emitted, buffer, deltas[0]);
        StreamKeepsClean(engine, holdback, q, emitted + first.emit, first.buffer, deltas[1..]);
        var rest := Stream(engine, holdback, first.buffer, deltas[1..]);
        assert (emitted + first.emit) + rest.emitted == emitted + (first.emit + rest.emitted);
      }
    }
  }
}
