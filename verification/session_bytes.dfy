// Where the operator's bytes go: for every read of every session, whatever the
// callbacks do, each byte is sent, still waits, or was spent on something that
// is named.
module SessionBytes {
  import opened Options
  import opened ByteStrings
  import opened ClientPath
  import opened PasteScanner
  import opened PasteLaws
  import opened Attach
  import opened Session
  import opened SessionLaws

  // The input bytes among the events, in the order the agent gets them.
  function SentBytes(events: seq<Event>): Bytes {
    if events == [] then []
    else SentBytes(events[..|events| - 1]) + (match events[|events| - 1] case Sent(b) => b case _ => [])
  }

  lemma {:induction false} SentAppend(a: seq<Event>, b: seq<Event>)
    ensures SentBytes(a + b) == SentBytes(a) + SentBytes(b)
    decreases |b|
  {
    if b == [] {
      assert a + b == a;
    } else {
      assert (a + b)[..|a + b| - 1] == a + b[..|b| - 1];
      SentAppend(a, b[..|b| - 1]);
    }
  }

  lemma SentOne(b: Bytes)
    ensures SentBytes([Sent(b)]) == b && SentBytes(SentUnlessEmpty(b)) == b
  {
    assert [Sent(b)][..0] == [];
    assert SentBytes([Sent(b)]) == [] + b;
  }

  lemma {:induction false} NothingSent(events: seq<Event>)
    requires forall e :: e in events ==> !e.Sent?
    ensures SentBytes(events) == []
    decreases |events|
  {
    if events != [] {
      assert events[|events| - 1] in events;
      NothingSent(events[..|events| - 1]);
    }
  }

  // The bytes waiting: held by the scanner, or in a paste whose fate is open.
  function Waiting(m: Mode): Bytes {
    m.scan.Held() + BracketedOf(m.pending)
  }

  function BracketedOf(pending: Option<PendingUpload>): Bytes {
    if pending.Some? then pending.value.bracketed else []
  }

  // How often the byte c occurs.
  function Tally(s: Bytes, c: byte): nat {
    multiset(s)[c]
  }

  lemma TallyAppend(a: Bytes, b: Bytes, c: byte)
    ensures Tally(a + b, c) == Tally(a, c) + Tally(b, c) && Tally([], c) == 0
  {
    assert multiset(a + b) == multiset(a) + multiset(b);
  }

  // ------------------------------------------------------ what a scan withholds

  // The keys a callback handled, in order.
  function HandledKeys(segs: seq<Segment>): Bytes {
    if segs == [] then [] else KeyOf(segs[0]) + HandledKeys(segs[1..])
  }

  function KeyOf(seg: Segment): Bytes {
    if seg.Trigger? && seg.handled then seg.bytes else []
  }

  // The bracketed text of the drops a callback took.
  function Taken(calls: seq<Call>): Bytes {
    if calls == [] then []
    else Taken(calls[..|calls| - 1]) + TakenBy(calls[|calls| - 1])
  }

  function TakenBy(c: Call): Bytes {
    if c.what.OnDrop? && c.handled then c.what.bracketed else []
  }

  // Those taken, among the first n, while a full-screen program owned the
  // terminal: they were uploaded.
  function Uploaded(env: Env, calls: seq<Call>, n: nat): Bytes
    requires n <= |calls|
  {
    if n == 0 then [] else Uploaded(env, calls, n - 1) + (if env.alt(n - 1) then TakenBy(calls[n - 1]) else [])
  }

  // Those put up for confirmation that a later one of the same read overtook:
  // no event will mention them again.
  function Forgotten(env: Env, calls: seq<Call>, n: nat): Bytes
    requires n <= |calls|
  {
    if n == 0 then []
    else Forgotten(env, calls, n - 1)
         + if Asks(env, calls, n - 1) then BracketedOf(LastTaken(env, calls, n - 1)) else []
  }

  predicate Asks(env: Env, calls: seq<Call>, k: nat)
    requires k < |calls|
  {
    calls[k].what.OnDrop? && calls[k].handled && !env.alt(k)
  }

  function LastTaken(env: Env, calls: seq<Call>, n: nat): Option<PendingUpload>
    requires n <= |calls|
  {
    if n == 0 then None
    else if Asks(env, calls, n - 1) then Some(PendingUpload(calls[n - 1].what.path, calls[n - 1].what.bracketed))
    else LastTaken(env, calls, n - 1)
  }

  // What becomes of the bytes of one read that neither reach the agent nor wait.
  datatype Spending = Spending(
    keys: Bytes,      // handled by a callback, for an image of the clipboard
    uploaded: Bytes,  // pastes of files uploaded to a full-screen program
    forgotten: Bytes, // pastes put up for confirmation and overtaken
    answered: Bytes,  // a confirm's yes and the paste it was about
    edited: Bytes,    // the attach chord and what the minibuffer was fed
    cut: Bytes)       // the summon chord and what follows it
  {
    function All(): Bytes {
      keys + uploaded + forgotten + answered + edited + cut
    }
  }

  const NOTHING := Spending([], [], [], [], [], [])

  function CallsOfScan(params: Params, m: Mode, before: Bytes, env: Env): seq<Call>
    requires params.Valid()
  {
    CallsOf(Processed(params.cfg, SessionAnswers(params, env), m.scan, before).segs)
  }

  function SpentByScan(params: Params, m: Mode, before: Bytes, env: Env): Spending
    requires params.Valid()
  {
    var calls := CallsOfScan(params, m, before, env);
    NOTHING.(keys := HandledKeys(Processed(params.cfg, SessionAnswers(params, env), m.scan, before).segs),
             uploaded := Uploaded(env, calls, |calls|),
             forgotten := Forgotten(env, calls, |calls|))
  }

  function SpentAt(params: Params, m: Mode, r: Read): Spending
    requires params.Valid()
  {
    if m.pending.Some? then
      if r.bytes == [] then NOTHING.(answered := m.pending.value.bracketed)
      else if Yes(r.bytes[0]) then NOTHING.(answered := m.pending.value.bracketed + r.bytes[..1])
      else NOTHING
    else if m.attaching.Some? then NOTHING.(edited := r.bytes)
    else
      var before := Offered(params, r);
      var cut := r.bytes[|before|..];
      if ChordAt(params, before) >= 0 then NOTHING.(edited := before[ChordAt(params, before)..], cut := cut)
      else if params.intercept then SpentByScan(params, m, before, r.env).(cut := cut)
      else NOTHING.(cut := cut)
  }

  // ------------------------------------------------------------ one scanned read

  lemma TakenOne(c: Call)
    ensures Taken([c]) == TakenBy(c)
  {
    assert [c][..0] == [];
    assert Taken([c]) == [] + TakenBy(c);
  }

  lemma {:induction false} TakenAppend(a: seq<Call>, b: seq<Call>)
    ensures Taken(a + b) == Taken(a) + Taken(b)
    decreases |b|
  {
    hide TakenBy;
    if b == [] {
      assert a + b == a;
    } else {
      assert (a + b)[..|a + b| - 1] == a + b[..|b| - 1];
      TakenAppend(a, b[..|b| - 1]);
    }
  }

  // A segment's bytes are forwarded, or a handled key, or a taken drop.
  lemma SegmentBytes(seg: Segment, c: byte)
    requires seg.Trigger? && seg.handled ==> seg.asked
    requires seg.Paste? && seg.taken ==> seg.offer.Some?
    ensures Tally(seg.Raw(), c) == Tally(seg.Out(), c) + Tally(KeyOf(seg), c) + Tally(Taken(seg.Calls()), c)
  {
    hide Tally, Taken;
    TallyAppend([], [], c);
    TakenNone();
    if seg.Calls() != [] {
      TakenOne(seg.Calls()[0]);
      assert seg.Calls() == [seg.Calls()[0]];
    }
  }

  lemma TakenNone()
    ensures Taken([]) == []
  {
  }

  lemma {:induction false} SegmentsBytes(cfg: Config, segs: seq<Segment>, c: byte)
    requires forall seg :: seg in segs ==> Accounted(cfg, seg)
    ensures Tally(RawOf(segs), c) == Tally(Forwarded(segs), c) + Tally(HandledKeys(segs), c)
        + Tally(Taken(CallsOf(segs)), c)
    decreases |segs|
  {
    hide Taken, Tally, TakenBy, KeyOf, Segment.Raw, Segment.Out, Segment.Calls, DroppedLocal, DroppedBare;
    if segs == [] {
      TakenNone();
      TallyAppend([], [], c);
    } else {
      var seg, rest := segs[0], segs[1..];
      assert seg in segs && forall x :: x in rest ==> x in segs;
      SegmentBytes(seg, c);
      SegmentsBytes(cfg, rest, c);
      TakenAppend(seg.Calls(), CallsOf(rest));
      TallyAppend(seg.Raw(), RawOf(rest), c);
      TallyAppend(seg.Out(), Forwarded(rest), c);
      TallyAppend(KeyOf(seg), HandledKeys(rest), c);
      TallyAppend(Taken(seg.Calls()), Taken(CallsOf(rest)), c);
    }
  }

  // The taken drops are the uploaded, the forgotten and the last one asked about.
  lemma {:induction false} TakenSplits(env: Env, calls: seq<Call>, n: nat, c: byte)
    requires n <= |calls|
    ensures Tally(Taken(calls[..n]), c)
         == Tally(Uploaded(env, calls, n), c) + Tally(Forgotten(env, calls, n), c)
          + Tally(BracketedOf(LastTaken(env, calls, n)), c)
    decreases n
  {
    hide Tally;
    TallyAppend([], [], c);
    if n > 0 {
      TakenSplits(env, calls, n - 1, c);
      assert calls[..n][..n - 1] == calls[..n - 1];
      var t := TakenBy(calls[n - 1]);
      TallyAppend(Taken(calls[..n - 1]), t, c);
      TallyAppend(Uploaded(env, calls, n - 1), if env.alt(n - 1) then t else [], c);
      TallyAppend(Forgotten(env, calls, n - 1),
                  if Asks(env, calls, n - 1) then BracketedOf(LastTaken(env, calls, n - 1)) else [], c);
    }
  }

  // What a scan leaves pending is the last drop it asked about.
  lemma {:induction false} PendingIsLastTaken(params: Params, env: Env, calls: seq<Call>, n: nat)
    requires n <= |calls| && Answered(SessionAnswers(params, env), 0, calls)
    ensures PendingOf(params, env, calls, n) == LastTaken(env, calls, n)
    decreases n
  {
    if n > 0 {
      PendingIsLastTaken(params, env, calls, n - 1);
      assert calls[n - 1].handled == SessionAnswers(params, env)(0 + (n - 1), calls[n - 1].what);
      AnswerIs(params, env, n - 1, calls[n - 1].what);
    }
  }

  // What the session's callbacks answer.
  lemma AnswerIs(params: Params, env: Env, k: nat, cb: Callback)
    ensures SessionAnswers(params, env)(k, cb) ==
      match cb
      case OnDrop(path, _) => params.uploads && (env.alt(k) ==> env.upload(k, path).Some?)
      case OnPasteKey => params.hasClip && env.clip(k).Image?
  {
    match cb
    case OnDrop(path, _) => assert DropPolicy(params.uploads, env.alt(k)).AsText? <==> !params.uploads;
    case OnPasteKey =>
  }

  lemma {:induction false} CallbacksSendNothing(params: Params, env: Env, calls: seq<Call>, n: nat)
    requires n <= |calls|
    ensures forall e :: e in EventsOf(params, env, calls, n) ==> !e.Sent?
  {
    if n > 0 {
      CallbacksSendNothing(params, env, calls, n - 1);
    }
  }

  lemma ScanSends(params: Params, m: Mode, before: Bytes, summon: bool, env: Env)
    requires params.Valid()
    ensures SentBytes(ScanStep(params, m, before, summon, env).events)
         == Forwarded(Processed(params.cfg, SessionAnswers(params, env), m.scan, before).segs)
  {
    hide Scan, EventsOf;
    var r := Processed(params.cfg, SessionAnswers(params, env), m.scan, before);
    var calls := CallsOf(r.segs);
    CallbacksSendNothing(params, env, calls, |calls|);
    NothingSent(EventsOf(params, env, calls, |calls|));
    SentAppend(EventsOf(params, env, calls, |calls|), SentUnlessEmpty(Forwarded(r.segs)));
    SentOne(Forwarded(r.segs));
  }

  // The books of one read balance for the byte c.
  ghost predicate Balanced(m: Mode, b: Bytes, s: Stepped, spent: Spending, c: byte) {
    Tally(Waiting(m), c) + Tally(b, c) ==
      Tally(SentBytes(s.events), c) + Tally(Waiting(s.mode), c) + Tally(spent.All(), c)
  }

  lemma TallySpending(s: Spending, c: byte)
    ensures Tally(s.All(), c) == Tally(s.keys, c) + Tally(s.uploaded, c) + Tally(s.forgotten, c)
                               + Tally(s.answered, c) + Tally(s.edited, c) + Tally(s.cut, c)
    ensures Tally([], c) == 0
  {
    hide Tally;
    TallyAppend(s.keys, s.uploaded, c);
    TallyAppend(s.keys + s.uploaded, s.forgotten, c);
    TallyAppend(s.keys + s.uploaded + s.forgotten, s.answered, c);
    TallyAppend(s.keys + s.uploaded + s.forgotten + s.answered, s.edited, c);
    TallyAppend(s.keys + s.uploaded + s.forgotten + s.answered + s.edited, s.cut, c);
  }

  lemma TallyWaiting(m: Mode, c: byte)
    ensures Tally(Waiting(m), c) == Tally(m.scan.Held(), c) + Tally(BracketedOf(m.pending), c) && Tally([], c) == 0
  {
    TallyAppend(m.scan.Held(), BracketedOf(m.pending), c);
  }

  // One scanned read: the bytes held before and those read are the bytes sent,
  // those that wait, and those spent.
  lemma ScanAccount(params: Params, m: Mode, before: Bytes, summon: bool, env: Env, c: byte)
    requires params.Valid() && m.pending == None
    ensures Balanced(m, before, ScanStep(params, m, before, summon, env), SpentByScan(params, m, before, env), c)
  {
    hide Tally, Scan, Taken, HandledKeys, Uploaded, Forgotten, LastTaken, PendingOf, EventsOf, Answered, RawOf, Waiting;
    var ans := SessionAnswers(params, env);
    var r := Processed(params.cfg, ans, m.scan, before);
    var calls := CallsOf(r.segs);
    var s := ScanStep(params, m, before, summon, env);
    ScanSends(params, m, before, summon, env);
    CallConserves(params.cfg, ans, m.scan, before);
    TallyAppend(RawOf(r.segs), r.state.Held(), c);
    TallyAppend(m.scan.Held(), before, c);
    SwallowOnlyWithCause(params.cfg, ans, m.scan, before);
    SegmentsBytes(params.cfg, r.segs, c);
    TakenSplits(env, calls, |calls|, c);
    assert calls[..|calls|] == calls;
    CallsAnswered(params.cfg, ans, m.scan.inPaste, m.scan.buf + before, true, 0);
    PendingIsLastTaken(params, env, calls, |calls|);
    TallyWaiting(m, c);
    TallyWaiting(s.mode, c);
    TallySpending(SpentByScan(params, m, before, env), c);
  }

  // -------------------------------------------------------------- every read

  // The account of any read in any mode.
  lemma ReadAccount(params: Params, m: Mode, r: Read, c: byte)
    requires params.Valid()
    ensures Balanced(m, r.bytes, Step(params, m, r.bytes, r.env), SpentAt(params, m, r), c)
  {
    if m.pending.Some? {
      ConfirmAccount(params, m, r, c);
    } else if m.attaching.Some? {
      LineAccount(params, m, r, c);
    } else {
      KeysAccount(params, m, r, c);
    }
  }

  lemma ConfirmAccount(params: Params, m: Mode, r: Read, c: byte)
    requires params.Valid() && m.pending.Some?
    ensures Balanced(m, r.bytes, Step(params, m, r.bytes, r.env), SpentAt(params, m, r), c)
  {
    hide Tally, Resolved, Waiting, Spending.All;
    var paste := m.pending.value.bracketed;
    ResolvedSends(m.pending.value, r.bytes, r.env);
    TallySpending(SpentAt(params, m, r), c);
    TallyWaiting(m, c);
    TallyWaiting(m.(pending := None), c);
    if r.bytes != [] && Yes(r.bytes[0]) {
      assert r.bytes == r.bytes[..1] + r.bytes[1..];
      TallyAppend(r.bytes[..1], r.bytes[1..], c);
      TallyAppend(paste, r.bytes[..1], c);
    } else if r.bytes != [] {
      TallyAppend(paste, r.bytes, c);
    }
  }

  // A yes costs the agent the key that said it and the paste, nothing more; any
  // other key costs it nothing.
  lemma ResolvedSends(pu: PendingUpload, b: Bytes, env: Env)
    ensures SentBytes(Resolved(pu, b, env)) ==
      if b == [] then [] else if Yes(b[0]) then b[1..] else pu.bracketed + b
  {
    hide Staged;
    if b == [] {
    } else if Yes(b[0]) {
      StagedSendsNothing(pu.path, env.upload(0, pu.path));
      SentAppend(Staged(pu.path, env.upload(0, pu.path)), SentUnlessEmpty(b[1..]));
      SentOne(b[1..]);
    } else {
      assert [Sent(pu.bracketed), Sent(b)] == [Sent(pu.bracketed)] + [Sent(b)];
      SentAppend([Sent(pu.bracketed)], [Sent(b)]);
      SentOne(pu.bracketed);
      SentOne(b);
    }
  }

  lemma StagedSendsNothing(path: Bytes, result: Option<Bytes>)
    ensures SentBytes(Staged(path, result)) == []
  {
    NothingSent(Staged(path, result));
  }

  lemma LineAccount(params: Params, m: Mode, r: Read, c: byte)
    requires params.Valid() && m.pending == None && m.attaching.Some?
    ensures Balanced(m, r.bytes, Step(params, m, r.bytes, r.env), SpentAt(params, m, r), c)
  {
    hide Tally, Minibuffer, Waiting, Spending.All;
    MinibufferSendsNothing(params, m.attaching.value, r.bytes, r.env);
    TallySpending(SpentAt(params, m, r), c);
    TallyWaiting(m, c);
    TallyWaiting(Step(params, m, r.bytes, r.env).mode, c);
  }

  // While the minibuffer is open nothing typed reaches the agent.
  lemma MinibufferSendsNothing(params: Params, line: Bytes, b: Bytes, env: Env)
    ensures SentBytes(Minibuffer(params, line, b, env).1) == []
  {
    hide Edit, Strip, Expand;
    NothingSent(Minibuffer(params, line, b, env).1);
  }

  lemma ChordSends(params: Params, m: Mode, pre: Bytes, after: Bytes, env: Env)
    ensures var s := ChordStep(params, m, pre, after, env);
            SentBytes(s.events) == pre && s.mode.scan == m.scan && s.mode.pending == m.pending
  {
    hide Minibuffer;
    var typed := if after == [] then (Some([]), []) else Minibuffer(params, [], after, env);
    MinibufferSendsNothing(params, [], after, env);
    SentAppend(SentUnlessEmpty(pre), typed.1);
    SentOne(pre);
  }

  lemma KeysAccount(params: Params, m: Mode, r: Read, c: byte)
    requires params.Valid() && Unclaimed(m)
    ensures Balanced(m, r.bytes, Step(params, m, r.bytes, r.env), SpentAt(params, m, r), c)
  {
    hide Tally, Step, Offered, SpentAt;
    NextIsKeys(params, m, r);
    OfferedIsFront(params, r);
    var before := Offered(params, r);
    assert r.bytes == before + r.bytes[|before|..];
    TallyAppend(before, r.bytes[|before|..], c);
    if ChordAt(params, before) >= 0 {
      ChordAccount(params, m, r, c);
    } else {
      PlainKeysAccount(params, m, r, c);
    }
  }

  lemma ChordAccount(params: Params, m: Mode, r: Read, c: byte)
    requires params.Valid() && Unclaimed(m) && ChordAt(params, Offered(params, r)) >= 0
    requires Tally(r.bytes, c) == Tally(Offered(params, r), c) + Tally(r.bytes[|Offered(params, r)|..], c)
    ensures var s := KeysStep(params, m, Offered(params, r), BeforeSummon(params, r.bytes).1, r.env);
            Balanced(m, r.bytes, s, SpentAt(params, m, r), c)
  {
    hide Tally, Offered, ChordStep, ChordAt, Waiting, Spending.All;
    var before := Offered(params, r);
    var i := ChordAt(params, before);
    ChordSends(params, m, before[..i], before[i + |params.attachKey|..], r.env);
    TallySpending(SpentAt(params, m, r), c);
    TallyWaiting(m, c);
    TallyWaiting(ChordStep(params, m, before[..i], before[i + |params.attachKey|..], r.env).mode, c);
    assert before == before[..i] + before[i..];
    TallyAppend(before[..i], before[i..], c);
  }

  lemma PlainKeysAccount(params: Params, m: Mode, r: Read, c: byte)
    requires params.Valid() && Unclaimed(m) && ChordAt(params, Offered(params, r)) < 0
    requires Tally(r.bytes, c) == Tally(Offered(params, r), c) + Tally(r.bytes[|Offered(params, r)|..], c)
    ensures var s := KeysStep(params, m, Offered(params, r), BeforeSummon(params, r.bytes).1, r.env);
            Balanced(m, r.bytes, s, SpentAt(params, m, r), c)
  {
    hide Tally, Offered, ScanStep, SpentByScan, ChordAt, Waiting, Spending.All;
    var before := Offered(params, r);
    TallySpending(SpentAt(params, m, r), c);
    if params.intercept {
      ScanAccount(params, m, before, BeforeSummon(params, r.bytes).1, r.env, c);
      ScanSpendsKeys(params, m, before, r.env);
      TallySpending(SpentByScan(params, m, before, r.env), c);
    } else {
      SentOne(before);
    }
  }

  lemma OfferedIsFront(params: Params, r: Read)
    ensures Offered(params, r) <= r.bytes
  {
  }

  lemma ScanSpendsKeys(params: Params, m: Mode, before: Bytes, env: Env)
    requires params.Valid()
    ensures var s := SpentByScan(params, m, before, env); s.answered == s.edited == s.cut == []
  {
  }

  // --------------------------------------------------------- what it bought

  // The k-th callback is a key that was handled, or a drop onto a full-screen
  // program that was taken.
  predicate KeyHandled(calls: seq<Call>, k: nat) {
    k < |calls| && calls[k].what.OnPasteKey? && calls[k].handled
  }

  predicate ScreenDropTaken(env: Env, calls: seq<Call>, k: nat) {
    k < |calls| && calls[k].what.OnDrop? && calls[k].handled && env.alt(k)
  }

  ghost predicate AnyKey(calls: seq<Call>) {
    exists k: nat :: KeyHandled(calls, k)
  }

  ghost predicate ImageRead(events: seq<Event>) {
    exists p :: ReadClipboard(Image(p)) in events
  }

  ghost predicate FileUploaded(events: seq<Event>) {
    exists path, p :: Upload(path, Some(p)) in events
  }

  // Keys are spent in a scan if and only if an image was read from the
  // clipboard, and pastes are spent on uploads if and only if a file was
  // uploaded: nothing is taken from the operator for nothing.
  lemma SpentForSomething(params: Params, m: Mode, before: Bytes, summon: bool, env: Env)
    requires params.Valid()
    ensures var events := ScanStep(params, m, before, summon, env).events;
            var spent := SpentByScan(params, m, before, env);
            (spent.keys != [] <==> ImageRead(events)) && (spent.uploaded != [] <==> FileUploaded(events))
  {
    hide Scan, HandledKeys, Uploaded, EventsOf, Answered, ImageRead, FileUploaded,
         KeyHandled, ScreenDropTaken, Forwarded;
    var ans := SessionAnswers(params, env);
    var r := Processed(params.cfg, ans, m.scan, before);
    var calls := CallsOf(r.segs);
    SwallowOnlyWithCause(params.cfg, ans, m.scan, before);
    CallsAnswered(params.cfg, ans, m.scan.inPaste, m.scan.buf + before, true, 0);
    KeysHandledIff(params.cfg, r.segs);
    TakenNotEmpty(params.cfg, r.segs);
    UploadedIff(env, calls, |calls|);
    EventsBought(params, env, calls, |calls|);
    SendingBuysNothing(EventsOf(params, env, calls, |calls|), Forwarded(r.segs));
    AllOf(env, calls);
  }

  lemma SendingBuysNothing(events: seq<Event>, out: Bytes)
    ensures ImageRead(events + SentUnlessEmpty(out)) <==> ImageRead(events)
    ensures FileUploaded(events + SentUnlessEmpty(out)) <==> FileUploaded(events)
  {
    assert forall e :: e in events + SentUnlessEmpty(out) <==> e in events || e in SentUnlessEmpty(out);
  }

  lemma AllOf(env: Env, calls: seq<Call>)
    ensures forall k: nat :: KeyHandled(calls, k) || ScreenDropTaken(env, calls, k) ==> k < |calls|
  {
  }

  lemma {:induction false} KeysHandledIff(cfg: Config, segs: seq<Segment>)
    requires cfg.Valid() && forall seg :: seg in segs ==> Accounted(cfg, seg)
    ensures HandledKeys(segs) != [] <==> AnyKey(CallsOf(segs))
    decreases |segs|
  {
    hide AnyKey, KeyOf, Accounted;
    if segs == [] {
      NoCallNoKey();
    } else {
      var seg, rest := segs[0], segs[1..];
      assert seg in segs && forall x :: x in rest ==> x in segs;
      KeysHandledIff(cfg, rest);
      SegmentKeyIff(cfg, seg);
      KeysAppend(seg.Calls(), CallsOf(rest));
    }
  }

  lemma NoCallNoKey()
    ensures !AnyKey([])
  {
  }

  lemma SegmentKeyIff(cfg: Config, seg: Segment)
    requires cfg.Valid() && Accounted(cfg, seg)
    ensures KeyOf(seg) != [] <==> AnyKey(seg.Calls())
  {
    if seg.Trigger? && seg.handled {
      assert KeyHandled(seg.Calls(), 0);
    }
  }

  lemma KeysAppend(a: seq<Call>, b: seq<Call>)
    ensures AnyKey(a + b) <==> AnyKey(a) || AnyKey(b)
  {
    if k: nat :| KeyHandled(a, k) {
      assert KeyHandled(a + b, k);
    } else if k: nat :| KeyHandled(b, k) {
      assert KeyHandled(a + b, |a| + k);
    } else if k: nat :| KeyHandled(a + b, k) {
      if k < |a| {
        assert KeyHandled(a, k);
      } else {
        assert KeyHandled(b, k - |a|);
      }
    }
  }

  lemma {:induction false} TakenNotEmpty(cfg: Config, segs: seq<Segment>)
    requires forall seg :: seg in segs ==> Accounted(cfg, seg)
    ensures forall c :: c in CallsOf(segs) && c.what.OnDrop? && c.handled ==> c.what.bracketed != []
    decreases |segs|
  {
    if segs != [] {
      var seg := segs[0];
      assert seg in segs && forall x :: x in segs[1..] ==> x in segs;
      TakenNotEmpty(cfg, segs[1..]);
      if seg.Bare? {
        BareNeedsPath(cfg.files, seg.bytes);
      }
    }
  }

  lemma {:induction false} UploadedIff(env: Env, calls: seq<Call>, n: nat)
    requires n <= |calls| && forall c :: c in calls && c.what.OnDrop? && c.handled ==> c.what.bracketed != []
    ensures Uploaded(env, calls, n) != [] <==> exists k :: 0 <= k < n && ScreenDropTaken(env, calls, k)
    decreases n
  {
    if n > 0 {
      UploadedIff(env, calls, n - 1);
      assert calls[n - 1] in calls;
      assert Uploaded(env, calls, n) != [] <==> Uploaded(env, calls, n - 1) != [] || ScreenDropTaken(env, calls, n - 1);
    }
  }

  lemma {:induction false} EventsBought(params: Params, env: Env, calls: seq<Call>, n: nat)
    requires n <= |calls| && Answered(SessionAnswers(params, env), 0, calls)
    ensures ImageRead(EventsOf(params, env, calls, n)) <==> exists k :: 0 <= k < n && KeyHandled(calls, k)
    ensures FileUploaded(EventsOf(params, env, calls, n)) <==> exists k :: 0 <= k < n && ScreenDropTaken(env, calls, k)
    decreases n
  {
    hide ImageRead, FileUploaded, CallbackEvents;
    if n == 0 {
      NothingBought();
    } else {
      EventsBought(params, env, calls, n - 1);
      assert calls[n - 1].handled == SessionAnswers(params, env)(0 + (n - 1), calls[n - 1].what);
      CallbackBought(params, env, n - 1, calls[n - 1].what);
      BoughtAppend(EventsOf(params, env, calls, n - 1), CallbackEvents(params, env, n - 1, calls[n - 1].what));
      assert KeyHandled(calls, n - 1) <==> calls[n - 1].what.OnPasteKey? && calls[n - 1].handled;
      assert ScreenDropTaken(env, calls, n - 1)
        <==> calls[n - 1].what.OnDrop? && calls[n - 1].handled && env.alt(n - 1);
    }
  }

  lemma NothingBought()
    ensures !ImageRead([]) && !FileUploaded([])
  {
  }

  lemma BoughtAppend(a: seq<Event>, b: seq<Event>)
    ensures ImageRead(a + b) <==> ImageRead(a) || ImageRead(b)
    ensures FileUploaded(a + b) <==> FileUploaded(a) || FileUploaded(b)
  {
    assert forall e :: e in a + b <==> e in a || e in b;
  }

  lemma CallbackBought(params: Params, env: Env, k: nat, cb: Callback)
    ensures ImageRead(CallbackEvents(params, env, k, cb)) <==> cb.OnPasteKey? && SessionAnswers(params, env)(k, cb)
    ensures FileUploaded(CallbackEvents(params, env, k, cb))
        <==> cb.OnDrop? && SessionAnswers(params, env)(k, cb) && env.alt(k)
  {
    AnswerIs(params, env, k, cb);
    var events := CallbackEvents(params, env, k, cb);
    match cb {
      case OnDrop(path, _) =>
        var result := env.upload(k, path);
        if params.uploads && env.alt(k) && result.Some? {
          assert Upload(path, Some(result.value)) in events;
        }
      case OnPasteKey =>
        if params.hasClip && env.clip(k).Image? {
          assert ReadClipboard(Image(env.clip(k).islandPath)) in events;
        }
    }
  }

  // ---------------------------------------------------------- whole sessions

  function SentIn(params: Params, input: seq<Read>, modes: seq<Mode>, n: nat): Bytes
    requires params.Valid() && n <= |input| && n <= |modes|
  {
    if n == 0 then [] else SentIn(params, input, modes, n - 1) + SentBytes(EventsAt(params, input, modes, n - 1))
  }

  function SpentIn(params: Params, input: seq<Read>, modes: seq<Mode>, n: nat): Bytes
    requires params.Valid() && n <= |input| && n <= |modes|
  {
    if n == 0 then [] else SpentIn(params, input, modes, n - 1) + SpentAt(params, modes[n - 1], input[n - 1]).All()
  }

  function TypedIn(input: seq<Read>, n: nat): Bytes
    requires n <= |input|
  {
    if n == 0 then [] else TypedIn(input, n - 1) + input[n - 1].bytes
  }

  lemma {:induction false} ByteAccount(params: Params, input: seq<Read>, modes: seq<Mode>, n: nat, c: byte)
    requires IsRun(params, input, modes) && n <= |input|
    ensures Tally(TypedIn(input, n), c)
         == Tally(SentIn(params, input, modes, n), c) + Tally(Waiting(modes[n]), c)
             + Tally(SpentIn(params, input, modes, n), c)
    decreases n
  {
    hide Tally, SpentAt, Spending.All, Step, Waiting;
    TallyAppend([], [], c);
    if n == 0 {
      TallyWaiting(START, c);
    } else {
      var i := n - 1;
      ByteAccount(params, input, modes, i, c);
      var m, r := modes[i], input[i];
      assert modes[n] == Next(params, m, r);
      ReadAccount(params, m, r, c);
      TallyAppend(TypedIn(input, i), r.bytes, c);
      TallyAppend(SentIn(params, input, modes, i), SentBytes(EventsAt(params, input, modes, i)), c);
      TallyAppend(SpentIn(params, input, modes, i), SpentAt(params, m, r).All(), c);
    }
  }

  // Over every run of a connection: the agent has received every typed byte,
  // none twice and none made up, but for what still waits and what was spent.
  lemma SessionAccount(params: Params, input: seq<Read>, modes: seq<Mode>, n: nat)
    requires IsRun(params, input, modes) && n <= |input|
    ensures multiset(TypedIn(input, n))
         == multiset(SentIn(params, input, modes, n)) + multiset(Waiting(modes[n]))
             + multiset(SpentIn(params, input, modes, n))
  {
    hide TypedIn, SentIn, Waiting, SpentIn;
    var typed, sent, spent := TypedIn(input, n), SentIn(params, input, modes, n), SpentIn(params, input, modes, n);
    forall c: byte ensures multiset(typed)[c] ==
      multiset(sent)[c] + multiset(Waiting(modes[n]))[c] + multiset(spent)[c] {
      ByteAccount(params, input, modes, n, c);
    }
  }

  // ---------------------------------------------------------- several connections

  // A connection of one session, from its attach to its end, and what was typed
  // while the next one was being dialled.
  datatype Connection = Connection(input: seq<Read>, modes: seq<Mode>, between: Bytes) {
    predicate HasModes() {
      |modes| == |input| + 1
    }
  }

  // What was typed, sent and spent over all of them, and the two losses of
  // dialling again: what still waited when the connection ended, since the next
  // starts with an idle scanner and no confirm, and what was typed meanwhile.
  datatype Books = Books(typed: Bytes, sent: Bytes, spent: Bytes, left: Bytes, between: Bytes)

  function BooksOf(params: Params, conns: seq<Connection>): Books
    requires params.Valid() && forall c :: c in conns ==> c.HasModes()
  {
    if conns == [] then Books([], [], [], [], [])
    else
      var before, c := BooksOf(params, conns[..|conns| - 1]), conns[|conns| - 1];
      var n := |c.input|;
      assert c in conns && c.HasModes();
      Books(before.typed + (TypedIn(c.input, n) + c.between),
            before.sent + SentIn(params, c.input, c.modes, n),
            before.spent + SpentIn(params, c.input, c.modes, n),
            before.left + Waiting(c.modes[n]),
            before.between + c.between)
  }

  lemma {:induction false} BooksBalance(params: Params, conns: seq<Connection>, b: byte)
    requires params.Valid() && forall c :: c in conns ==> c.HasModes() && IsRun(params, c.input, c.modes)
    ensures var s := BooksOf(params, conns);
            Tally(s.typed, b) == Tally(s.sent, b) + Tally(s.spent, b) + Tally(s.left, b) + Tally(s.between, b)
    decreases |conns|
  {
    hide Tally, TypedIn, SentIn, SpentIn, Waiting, IsRun;
    TallyAppend([], [], b);
    if conns != [] {
      var before, c := BooksOf(params, conns[..|conns| - 1]), conns[|conns| - 1];
      var n := |c.input|;
      assert c in conns && IsRun(params, c.input, c.modes);
      BooksBalance(params, conns[..|conns| - 1], b);
      ByteAccount(params, c.input, c.modes, n, b);
      TallyAppend(TypedIn(c.input, n), c.between, b);
      TallyAppend(before.typed, TypedIn(c.input, n) + c.between, b);
      TallyAppend(before.sent, SentIn(params, c.input, c.modes, n), b);
      TallyAppend(before.spent, SpentIn(params, c.input, c.modes, n), b);
      TallyAppend(before.left, Waiting(c.modes[n]), b);
      TallyAppend(before.between, c.between, b);
    }
  }

  // Over a whole session, however often it was dialled again.
  lemma LoopAccount(params: Params, conns: seq<Connection>)
    requires params.Valid() && forall c :: c in conns ==> c.HasModes() && IsRun(params, c.input, c.modes)
    ensures var s := BooksOf(params, conns);
            multiset(s.typed) == multiset(s.sent) + multiset(s.spent) + multiset(s.left) + multiset(s.between)
  {
    hide IsRun, BooksOf;
    var s := BooksOf(params, conns);
    forall b: byte
      ensures multiset(s.typed)[b]
           == multiset(s.sent)[b] + multiset(s.spent)[b] + multiset(s.left)[b] + multiset(s.between)[b]
    {
      BooksBalance(params, conns, b);
    }
  }
}
