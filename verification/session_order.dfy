// In what order the agent gets the operator's bytes.
module SessionOrder {
  import opened Options
  import opened ByteStrings
  import opened PasteScanner
  import opened PasteLaws
  import opened PasteSplits
  import opened Session
  import opened SessionLaws
  import opened SessionBytes

  // One scanned read keeps the order of the bytes, and all of them, exactly
  // when no callback handled anything.
  lemma ScanInOrderIff(params: Params, m: Mode, before: Bytes, summon: bool, env: Env)
    requires params.Valid()
    ensures var s := ScanStep(params, m, before, summon, env);
            (SentBytes(s.events) + s.mode.scan.Held() == m.scan.Held() + before)
              <==> NoneHandled(CallsOfScan(params, m, before, env))
  {
    hide Scan;
    var ans := SessionAnswers(params, env);
    var r := Processed(params.cfg, ans, m.scan, before);
    ScanSends(params, m, before, summon, env);
    CallConserves(params.cfg, ans, m.scan, before);
    SwallowOnlyWithCause(params.cfg, ans, m.scan, before);
    ForwardsAllIff(params.cfg, r.segs, r.state.Held(), m.scan.Held() + before);
  }

  // A read with no chord in it, about which no callback did anything.
  ghost predicate Unbridged(params: Params, m: Mode, r: Read)
    requires params.Valid()
  {
    && Offered(params, r) == r.bytes && ChordAt(params, r.bytes) < 0
    && (params.intercept ==> NoneHandled(CallsOfScan(params, m, r.bytes, r.env)))
  }

  // With pastes not uploaded, a callback handles something exactly when an image
  // is read from the clipboard.
  lemma OffHandledIff(params: Params, m: Mode, before: Bytes, summon: bool, env: Env)
    requires params.Valid() && !params.uploads
    ensures NoneHandled(CallsOfScan(params, m, before, env))
        <==> !ImageRead(ScanStep(params, m, before, summon, env).events)
  {
    hide Scan, EventsOf, Forwarded, ImageRead;
    var ans := SessionAnswers(params, env);
    var r := Processed(params.cfg, ans, m.scan, before);
    var calls := CallsOf(r.segs);
    CallsAnswered(params.cfg, ans, m.scan.inPaste, m.scan.buf + before, true, 0);
    EventsBought(params, env, calls, |calls|);
    SendingBuysNothing(EventsOf(params, env, calls, |calls|), Forwarded(r.segs));
    forall k | 0 <= k < |calls| ensures calls[k].handled <==> KeyHandled(calls, k) {
      assert calls[k].handled == ans(0 + k, calls[k].what);
      AnswerIs(params, env, k, calls[k].what);
    }
  }

  // A drop put up for confirmation counts as handled.
  lemma {:induction false} UnhandledLeavesNothing(params: Params, env: Env, calls: seq<Call>, n: nat)
    requires n <= |calls| && NoneHandled(calls) && Answered(SessionAnswers(params, env), 0, calls)
    ensures PendingOf(params, env, calls, n) == None
  {
    if n > 0 {
      UnhandledLeavesNothing(params, env, calls, n - 1);
      assert calls[n - 1] in calls;
      assert calls[n - 1].handled == SessionAnswers(params, env)(0 + (n - 1), calls[n - 1].what);
    }
  }

  lemma UnbridgedStep(params: Params, m: Mode, r: Read)
    requires params.Valid() && Unclaimed(m) && Unbridged(params, m, r)
    ensures var s := Step(params, m, r.bytes, r.env);
            && Unclaimed(s.mode)
            && if params.intercept then SentBytes(s.events) + s.mode.scan.Held() == m.scan.Held() + r.bytes
               else s.mode == m && SentBytes(s.events) == r.bytes
  {
    hide Scan;
    NextIsKeys(params, m, r);
    if params.intercept {
      ScanInOrderIff(params, m, r.bytes, BeforeSummon(params, r.bytes).1, r.env);
      CallsAnswered(params.cfg, SessionAnswers(params, r.env), m.scan.inPaste, m.scan.buf + r.bytes, true, 0);
      var calls := CallsOfScan(params, m, r.bytes, r.env);
      UnhandledLeavesNothing(params, r.env, calls, |calls|);
    } else {
      SentOne(r.bytes);
    }
  }

  // Over a whole session of such reads the agent gets just what was typed, in
  // the order it was typed, but for the few bytes the scanner still holds.
  lemma {:induction false} SessionInOrder(params: Params, input: seq<Read>, modes: seq<Mode>, n: nat)
    requires IsRun(params, input, modes) && n <= |input|
    requires forall i :: 0 <= i < n ==> Unbridged(params, modes[i], input[i])
    ensures Unclaimed(modes[n]) && (!params.intercept ==> modes[n] == START)
    ensures SentIn(params, input, modes, n) + modes[n].scan.Held() == TypedIn(input, n)
    decreases n
  {
    if n > 0 {
      var i := n - 1;
      SessionInOrder(params, input, modes, i);
      UnbridgedStep(params, modes[i], input[i]);
      assert modes[n] == Next(params, modes[i], input[i]);
      Assoc(SentIn(params, input, modes, i), SentBytes(EventsAt(params, input, modes, i)), modes[n].scan.Held());
      Assoc(SentIn(params, input, modes, i), modes[i].scan.Held(), input[i].bytes);
    }
  }

  // ------------------------------------------------ the chord overtakes held bytes

  // The attach chord does not keep the order: what precedes it in its read is
  // sent at once, and bytes the scanner held before stay behind. The order
  // survives exactly when the two may be swapped, as when one is empty.
  lemma ChordOvertakesIff(params: Params, m: Mode, r: Read)
    requires params.Valid() && Unclaimed(m) && ChordAt(params, Offered(params, r)) >= 0
    ensures var pre := Offered(params, r)[..ChordAt(params, Offered(params, r))];
            var s := Step(params, m, r.bytes, r.env);
            && SentBytes(s.events) == pre && s.mode.scan == m.scan
            && ((SentBytes(s.events) + s.mode.scan.Held() == m.scan.Held() + pre)
                  <==> (pre + m.scan.Held() == m.scan.Held() + pre))
            && (pre == [] || m.scan.Held() == [] ==> SentBytes(s.events) + s.mode.scan.Held() == m.scan.Held() + pre)
  {
    hide ChordStep, Offered, ChordAt, SentBytes, ScanStep, BeforeSummon, State.Held;
    NextIsKeys(params, m, r);
    var i := ChordAt(params, Offered(params, r));
    ChordSends(params, m, Offered(params, r)[..i], Offered(params, r)[i + |params.attachKey|..], r.env);
    assert m.scan.Held() + [] == m.scan.Held() == [] + m.scan.Held();
  }

  const ATTACH: byte := 0x1D // Ctrl-]
  const INTRO: Bytes := BP_START[..2] // ESC [
  const X: byte := 0x78

  // It happens: ESC and "[" in one read, "x" and the chord in the next, and the
  // agent has got "x" alone while the two earlier bytes still wait.
  lemma ChordOvertakes(params: Params, env: Env) returns (input: seq<Read>, modes: seq<Mode>)
    requires params.Valid() && Separate(params.cfg) && params.attachKey == [ATTACH]
    ensures IsRun(params, input, modes) && |input| == 2
    ensures TypedIn(input, 2) == INTRO + [X, ATTACH]
    ensures SentIn(params, input, modes, 2) == [X] && modes[2].scan.Held() == INTRO
  {
    hide SentBytes, SentIn, TypedIn, Step;
    var first, second := Read(INTRO, env), Read([X, ATTACH], env);
    var a := Next(params, START, first);
    input, modes := [first, second], [START, a, Next(params, a, second)];
    IntroIsHeld(params, env);
    ChordIsSent(params, a, env);
    SentTwice(params, input, modes);
    assert INTRO + [X, ATTACH] == [] + INTRO + [X, ATTACH];
  }

  lemma NotThere(b: Bytes, c: byte)
    requires c !in b
    ensures IndexOf(b, [c]) < 0
  {
    forall i ensures !At(b, [c], i) {
      if 0 <= i < |b| {
        assert b[i..i + 1] == [b[i]] && b[i] in b;
      }
    }
  }

  lemma IntroIsHeld(params: Params, env: Env)
    requires params.Valid() && Separate(params.cfg) && params.attachKey == [ATTACH]
    ensures var s := Step(params, START, INTRO, env);
            s.mode == Mode(State(false, INTRO), None, None) && SentBytes(s.events) == []
  {
    hide Scan;
    NotThere(INTRO, SUMMON);
    NotThere(INTRO, ATTACH);
    NextIsKeys(params, START, Read(INTRO, env));
    assert IDLE.buf + INTRO == INTRO;
    PrefixStep(params.cfg, SessionAnswers(params, env), 2);
    PlainOutputs([]);
    var r := Processed(params.cfg, SessionAnswers(params, env), START.scan, INTRO);
    assert r == Scanned([Plain([])], State(false, INTRO));
    ScanSends(params, START, INTRO, BeforeSummon(params, INTRO).1, env);
  }

  lemma ChordIsSent(params: Params, m: Mode, env: Env)
    requires params.Valid() && Unclaimed(m) && params.attachKey == [ATTACH]
    ensures var s := Step(params, m, [X, ATTACH], env); SentBytes(s.events) == [X] && s.mode.scan == m.scan
  {
    hide Step;
    var b := [X, ATTACH];
    NotThere(b, SUMMON);
    assert b[1..2] == [ATTACH];
    assert At(b, [ATTACH], 1);
    assert !At(b, [ATTACH], 0) by { assert b[0..1][0] == X; }
    assert b[..1] == [X];
    ChordOvertakesIff(params, m, Read(b, env));
  }

  lemma SentTwice(params: Params, input: seq<Read>, modes: seq<Mode>)
    requires params.Valid() && |input| == 2 && |modes| >= 2
    ensures SentIn(params, input, modes, 2)
         == SentBytes(EventsAt(params, input, modes, 0)) + SentBytes(EventsAt(params, input, modes, 1))
    ensures TypedIn(input, 2) == input[0].bytes + input[1].bytes
  {
    hide SentBytes, EventsAt, Step;
    var a, b := SentBytes(EventsAt(params, input, modes, 0)), SentBytes(EventsAt(params, input, modes, 1));
    assert SentIn(params, input, modes, 1) == [] + a;
    assert TypedIn(input, 1) == [] + input[0].bytes;
  }
}
