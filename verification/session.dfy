// One attached session's stdin: the upload confirm, the attach minibuffer,
// the summon chord and the paste scanner, in the order they claim a chunk.
module Session {
  import opened Options
  import opened ByteStrings
  import opened ClientPath
  import opened PasteScanner
  import opened Attach

  const SUMMON: byte := 0x1C

  datatype PendingUpload = PendingUpload(path: Bytes, bracketed: Bytes)

  datatype Policy = AsText | Confirm | UploadNow

  // pasteDropPolicy
  function DropPolicy(uploads: bool, altScreen: bool): Policy {
    if !uploads then AsText else if altScreen then UploadNow else Confirm
  }

  // What does not change during a connection. Interception means an island
  // session on a terminal; only then are the attach key and the keys set.
  datatype Params = Params(cfg: Config, intercept: bool, summonable: bool, attachKey: Bytes,
                           uploads: bool, hasClip: bool) {
    predicate Valid() {
      cfg.Valid() && cfg.hasDrop && cfg.hasKey && (attachKey != [] ==> intercept)
    }
  }

  datatype Clip = Image(islandPath: Bytes) | NoImage | ClipFailed

  // What the world does while one chunk is handled, per callback: whether a
  // full-screen program owns the terminal, how an upload ends (the island path,
  // or failure) and what the clipboard holds.
  datatype Env = Env(alt: nat -> bool, upload: (nat, Bytes) -> Option<Bytes>, clip: nat -> Clip)

  datatype Event =
    | Sent(bytes: Bytes)                             // input bytes to the agent
    | Upload(path: Bytes, result: Option<Bytes>)     // a local file copied to the island
    | ReadClipboard(got: Clip)
    | Inject(islandPath: Bytes)                      // a staged path pasted to the agent

  // scanner state, pending upload, open minibuffer line
  datatype Mode = Mode(scan: State, pending: Option<PendingUpload>, attaching: Option<Bytes>)

  const START := Mode(IDLE, None, None)

  datatype Stepped = Stepped(mode: Mode, events: seq<Event>, summoned: bool)

  predicate Yes(c: byte) {
    c == 0x75 || c == 0x55 || c == 0x79 || c == 0x59 // u U y Y
  }

  function Staged(path: Bytes, result: Option<Bytes>): seq<Event> {
    [Upload(path, result)] + match result case Some(p) => [Inject(p)] case None => []
  }

  function SentUnlessEmpty(b: Bytes): seq<Event> {
    if b == [] then [] else [Sent(b)]
  }

  // resolveUpload
  function Resolved(pu: PendingUpload, b: Bytes, env: Env): seq<Event> {
    if b == [] then []
    else if Yes(b[0]) then Staged(pu.path, env.upload(0, pu.path)) + SentUnlessEmpty(b[1..])
    else [Sent(pu.bracketed), Sent(b)]
  }

  // finishAttach
  function Finished(params: Params, line: Bytes, env: Env): seq<Event> {
    var p := Expand(params.cfg.files, line);
    if p == [] || !params.cfg.files.isRegular(p) then [] else Staged(p, env.upload(0, p))
  }

  // stepAttach: the line still open, if any, and what happened.
  function Minibuffer(params: Params, line: Bytes, b: Bytes, env: Env): (Option<Bytes>, seq<Event>) {
    match Edit(line, Strip(b))
    case Editing(x) => (Some(x), [])
    case Cancelled => (None, [])
    case Submitted(l) => (None, Finished(params, l, env))
  }

  // The answers the session's callbacks give the scanner.
  function SessionAnswers(params: Params, env: Env): Answers {
    (k: nat, cb: Callback) =>
      match cb
      case OnDrop(path, _) =>
        (match DropPolicy(params.uploads, env.alt(k))
         case AsText => false
         case UploadNow => env.upload(k, path).Some?
         case Confirm => true)
      case OnPasteKey => params.hasClip && env.clip(k).Image?
  }

  // What the k-th callback does besides answering.
  function CallbackEvents(params: Params, env: Env, k: nat, cb: Callback): seq<Event> {
    match cb
    case OnDrop(path, _) =>
      if DropPolicy(params.uploads, env.alt(k)) == UploadNow then Staged(path, env.upload(k, path)) else []
    case OnPasteKey =>
      if !params.hasClip then []
      else [ReadClipboard(env.clip(k))] + match env.clip(k) case Image(p) => [Inject(p)] case _ => []
  }

  function CallbackPending(params: Params, env: Env, k: nat, cb: Callback, was: Option<PendingUpload>):
      Option<PendingUpload> {
    if cb.OnDrop? && DropPolicy(params.uploads, env.alt(k)) == Confirm then Some(PendingUpload(cb.path, cb.bracketed))
    else was
  }

  // The first n callbacks of a chunk, in order.
  function EventsOf(params: Params, env: Env, calls: seq<Call>, n: nat): seq<Event>
    requires n <= |calls|
  {
    if n == 0 then [] else EventsOf(params, env, calls, n - 1) + CallbackEvents(params, env, n - 1, calls[n - 1].what)
  }

  function PendingOf(params: Params, env: Env, calls: seq<Call>, n: nat): Option<PendingUpload>
    requires n <= |calls|
  {
    if n == 0 then None
    else CallbackPending(params, env, n - 1, calls[n - 1].what, PendingOf(params, env, calls, n - 1))
  }

  // splitOnSummon: the bytes before the chord, and whether it was there.
  function BeforeSummon(params: Params, b: Bytes): (r: (Bytes, bool))
    ensures r.1 <==> params.summonable && SUMMON in b
    ensures r.1 ==> r.0 + [SUMMON] <= b && SUMMON !in r.0
    ensures !r.1 ==> r.0 == b
  {
    FirstByte(b, SUMMON);
    var i := IndexOf(b, [SUMMON]);
    if params.summonable && i >= 0 then (b[..i], true) else (b, false)
  }

  lemma FirstByte(b: Bytes, c: byte)
    ensures var i := IndexOf(b, [c]);
            (i >= 0 <==> c in b) && (i >= 0 ==> b[..i] + [c] <= b && c !in b[..i])
  {
    forall i | 0 <= i < |b| ensures At(b, [c], i) <==> b[i] == c {
      assert b[i..i + 1] == [b[i]];
    }
    assert c in b ==> exists i :: 0 <= i < |b| && b[i] == c;
  }

  // splitOnAttach
  function ChordAt(params: Params, b: Bytes): (i: int)
    ensures i < 0 || i + |params.attachKey| <= |b|
    ensures i >= 0 <==> params.attachKey != [] && exists j :: At(b, params.attachKey, j)
    ensures i >= 0 ==> At(b, params.attachKey, i) && forall j :: At(b, params.attachKey, j) ==> i <= j
  {
    if params.attachKey == [] then -1 else IndexOf(b, params.attachKey)
  }

  // One chunk of stdin.
  function Step(params: Params, m: Mode, b: Bytes, env: Env): Stepped
    requires params.Valid()
  {
    if m.pending.Some? then Stepped(m.(pending := None), Resolved(m.pending.value, b, env), false)
    else if m.attaching.Some? then
      var r := Minibuffer(params, m.attaching.value, b, env);
      Stepped(m.(attaching := r.0), r.1, false)
    else
      var cut := BeforeSummon(params, b);
      KeysStep(params, m, cut.0, cut.1, env)
  }

  // Keys no confirm and no minibuffer claims, cut at the summon chord if the
  // read has one. The attach chord comes first and leaves a summon unheeded.
  function KeysStep(params: Params, m: Mode, before: Bytes, summon: bool, env: Env): Stepped
    requires params.Valid()
  {
    var i := ChordAt(params, before);
    if i >= 0 then ChordStep(params, m, before[..i], before[i + |params.attachKey|..], env)
    else if params.intercept then ScanStep(params, m, before, summon, env)
    else Stepped(m, SentUnlessEmpty(before), summon)
  }

  // The attach chord: forward what precedes it, seed the line with what follows.
  function ChordStep(params: Params, m: Mode, pre: Bytes, after: Bytes, env: Env): Stepped {
    var r := if after == [] then (Some([]), []) else Minibuffer(params, [], after, env);
    Stepped(m.(attaching := r.0), SentUnlessEmpty(pre) + r.1, false)
  }

  function ScanStep(params: Params, m: Mode, before: Bytes, summon: bool, env: Env): Stepped
    requires params.Valid()
  {
    var r := Processed(params.cfg, SessionAnswers(params, env), m.scan, before);
    var calls := CallsOf(r.segs);
    Stepped(Mode(r.state, PendingOf(params, env, calls, |calls|), None),
            EventsOf(params, env, calls, |calls|) + SentUnlessEmpty(Forwarded(r.segs)), summon)
  }

  // What ends the wait on the connection's channels.
  datatype Reason = Reconnect | ExitClean | ExitStdinEOF | ExitCtx | ExitSummon

  datatype Select = CtxDone | StdinDone | ReadEnded(reason: Reason) | Chunk(bytes: Bytes, env: Env)

  datatype Played = Played(mode: Mode, events: seq<Event>, reason: Option<Reason>)

  // What one of them does to a session still running.
  function Woken(params: Params, was: Played, what: Select): Played
    requires params.Valid()
  {
    match what
    case CtxDone => was.(reason := Some(ExitCtx))
    case StdinDone => was.(reason := Some(ExitStdinEOF))
    case ReadEnded(r) => was.(reason := Some(r))
    case Chunk(b, env) =>
      var s := Step(params, was.mode, b, env);
      Played(s.mode, was.events + s.events, if s.summoned then Some(ExitSummon) else None)
  }

  // The session after the first n things that happen; it stops at a reason.
  function Play(params: Params, script: seq<Select>, n: nat): Played
    requires params.Valid() && n <= |script|
  {
    if n == 0 then Played(START, [], None)
    else
      var was := Play(params, script, n - 1);
      if was.reason.Some? then was else Woken(params, was, script[n - 1])
  }

  class SessionConn {
    const params: Params
    const paste: Scanner
    var pending: Option<PendingUpload>
    var attaching: AttachState?
    var events: seq<Event>

    constructor (params: Params)
      requires params.Valid()
      ensures Valid() && this.params == params && View() == START && events == []
      ensures fresh(Repr())
    {
      this.params := params;
      paste := new Scanner(params.cfg.triggers);
      pending, attaching, events := None, null, [];
    }

    ghost predicate Valid()
      reads this
    {
      params.Valid() && paste.triggers == params.cfg.triggers
    }

    ghost function Repr(): set<object>
      reads this
    {
      {this, paste} + if attaching == null then {} else {attaching}
    }

    ghost function View(): Mode
      reads Repr()
    {
      Mode(State(paste.inPaste, paste.buf), pending, if attaching == null then None else Some(attaching.buf))
    }

    method Emit(more: seq<Event>)
      modifies this`events
      ensures events == old(events) + more
    {
      events := events + more;
    }

    method ResolveUpload(b: Bytes, env: Env)
      requires pending.Some?
      modifies this`pending, this`events
      ensures pending == None && events == old(events) + Resolved(old(pending.value), b, env)
    {
      var pu := pending.value;
      pending := None;
      if |b| == 0 {
        Emit([]);
        return;
      }
      if Yes(b[0]) {
        var result := env.upload(0, pu.path);
        Emit([Upload(pu.path, result)]);
        match result {
          case None =>
          case Some(p) => Emit([Inject(p)]);
        }
        if |b| > 1 {
          Emit([Sent(b[1..])]);
        }
      } else {
        Emit([Sent(pu.bracketed)]);
        Emit([Sent(b)]);
      }
    }

    method FinishAttach(line: Bytes, env: Env)
      modifies this`events
      ensures events == old(events) + Finished(params, line, env)
    {
      var p := Expand(params.cfg.files, line);
      if p == [] || !params.cfg.files.isRegular(p) {
        Emit([]);
        return;
      }
      var result := env.upload(0, p);
      Emit([Upload(p, result)]);
      match result {
        case None =>
        case Some(q) => Emit([Inject(q)]);
      }
    }

    method StepAttach(b: Bytes, env: Env)
      requires Valid() && attaching != null
      modifies this`attaching, this`events, attaching
      ensures var r := Minibuffer(params, old(attaching.buf), b, env);
              && events == old(events) + r.1
              && (attaching == null || attaching == old(attaching))
              && r.0 == if attaching == null then None else Some(attaching.buf)
    {
      var done, cancelled, p := attaching.Feed(b);
      if cancelled {
        attaching := null;
        Emit([]);
      } else if done {
        attaching := null;
        FinishAttach(p, env);
      } else {
        Emit([]);
      }
    }

    // The callbacks of one scan, in the order they were made.
    method RunCallbacks(calls: seq<Call>, env: Env)
      requires pending == None
      modifies this`pending, this`events
      ensures events == old(events) + EventsOf(params, env, calls, |calls|)
      ensures pending == PendingOf(params, env, calls, |calls|)
    {
      Emit([]);
      hide CallbackEvents, CallbackPending;
      for i := 0 to |calls|
        invariant events == old(events) + EventsOf(params, env, calls, i)
        invariant pending == PendingOf(params, env, calls, i)
      {
        RunCallback(i, calls[i].what, env);
      }
    }

    // The k-th of them.
    method RunCallback(k: nat, cb: Callback, env: Env)
      modifies this`pending, this`events
      ensures events == old(events) + CallbackEvents(params, env, k, cb)
      ensures pending == CallbackPending(params, env, k, cb, old(pending))
    {
      match cb {
        case OnDrop(path, bracketed) =>
          match DropPolicy(params.uploads, env.alt(k)) {
            case AsText => Emit([]);
            case UploadNow => Emit(Staged(path, env.upload(k, path)));
            case Confirm =>
              pending := Some(PendingUpload(path, bracketed));
              Emit([]);
          }
        case OnPasteKey =>
          if !params.hasClip {
            Emit([]);
            return;
          }
          Emit([ReadClipboard(env.clip(k))]);
          match env.clip(k) {
            case Image(p) => Emit([Inject(p)]);
            case _ =>
          }
      }
    }

    method HandleChunk(b: Bytes, env: Env) returns (summoned: bool)
      requires Valid()
      modifies Repr()
      ensures Valid() && fresh(Repr() - old(Repr()))
      ensures var s := Step(params, old(View()), b, env);
              View() == s.mode && events == old(events) + s.events && summoned == s.summoned
    {
      summoned := false;
      if pending.Some? {
        ResolveUpload(b, env);
        return;
      }
      if attaching != null {
        StepAttach(b, env);
        return;
      }
      var (before, summon) := BeforeSummon(params, b);
      summoned := HandleKeys(before, summon, env);
    }

    method HandleKeys(before: Bytes, summon: bool, env: Env) returns (summoned: bool)
      requires Valid() && attaching == null && pending == None
      modifies this, paste
      ensures Valid() && fresh(Repr() - old(Repr()))
      ensures var s := KeysStep(params, old(View()), before, summon, env);
              View() == s.mode && events == old(events) + s.events && summoned == s.summoned
    {
      hide ScanStep, ChordStep, ChordAt;
      var i := ChordAt(params, before);
      if i >= 0 {
        OpenMinibuffer(before[..i], before[i + |params.attachKey|..], env);
        return false;
      }
      if params.intercept {
        ScanChunk(before, summon, env);
      } else {
        Emit(SentUnlessEmpty(before));
      }
      summoned := summon;
    }

    method OpenMinibuffer(pre: Bytes, after: Bytes, env: Env)
      requires Valid() && attaching == null && pending == None
      modifies this
      ensures Valid() && fresh(Repr() - old(Repr()))
      ensures var s := ChordStep(params, old(View()), pre, after, env);
              View() == s.mode && events == old(events) + s.events && !s.summoned
    {
      if |pre| > 0 {
        Emit([Sent(pre)]);
      }
      assert events == old(events) + SentUnlessEmpty(pre);
      attaching := new AttachState();
      if |after| > 0 {
        StepAttach(after, env);
      } else {
        Emit([]);
      }
    }

    method ScanChunk(before: Bytes, ghost summon: bool, env: Env)
      requires Valid() && attaching == null && pending == None
      modifies this`pending, this`events, paste
      ensures var s := ScanStep(params, old(View()), before, summon, env);
              View() == s.mode && events == old(events) + s.events && s.summoned == summon
    {
      var out, calls := paste.Process(params.cfg, SessionAnswers(params, env), before);
      RunCallbacks(calls, env);
      Emit(SentUnlessEmpty(out));
    }

    // One turn of the select.
    method Wake(what: Select) returns (reason: Option<Reason>)
      requires Valid()
      modifies Repr()
      ensures Valid() && fresh(Repr() - old(Repr()))
      ensures Played(View(), events, reason) == Woken(params, Played(old(View()), old(events), None), what)
    {
      match what {
        case CtxDone => reason := Some(ExitCtx);
        case StdinDone => reason := Some(ExitStdinEOF);
        case ReadEnded(r) => reason := Some(r);
        case Chunk(b, env) =>
          var summoned := HandleChunk(b, env);
          reason := if summoned then Some(ExitSummon) else None;
      }
    }

    // The loop over the connection's channels, until something ends it.
    method Run(script: seq<Select>) returns (reason: Option<Reason>)
      requires Valid() && View() == START && events == []
      modifies Repr()
      ensures var p := Play(params, script, |script|);
              View() == p.mode && events == p.events && reason == p.reason
    {
      hide Woken;
      for i := 0 to |script|
        invariant Valid() && fresh(Repr() - old(Repr()))
        invariant Play(params, script, i) == Played(View(), events, None)
      {
        reason := Wake(script[i]);
        if reason.Some? {
          Ended(params, script, i + 1);
          return;
        }
      }
      return None;
    }
  }

  // Once a session has ended nothing more happens to it.
  lemma {:induction false} Ended(params: Params, script: seq<Select>, n: nat)
    requires params.Valid() && n <= |script| && Play(params, script, n).reason.Some?
    ensures Play(params, script, |script|) == Play(params, script, n)
    decreases |script| - n
  {
    hide Woken;
    if n < |script| {
      assert Play(params, script, n + 1) == Play(params, script, n);
      Ended(params, script, n + 1);
    }
  }
}
