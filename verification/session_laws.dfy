// What a session promises over all its runs.
module SessionLaws {
  import opened Options
  import opened ByteStrings
  import opened ClientPath
  import opened PasteScanner
  import opened Attach
  import opened Session

  // ------------------------------------------------------------- the summon chord

  // A summon ends the session exactly when no confirm and no minibuffer owns
  // the keys and no attach chord precedes it in the same read.
  lemma SummonIff(params: Params, m: Mode, b: Bytes, env: Env)
    requires params.Valid()
    ensures Step(params, m, b, env).summoned <==>
      && m.pending == None && m.attaching == None && params.summonable && SUMMON in b
      && ChordAt(params, BeforeSummon(params, b).0) < 0
  {
    var i := IndexOf(b, [SUMMON]);
    if SUMMON in b {
      var j :| 0 <= j < |b| && b[j] == SUMMON;
      assert b[j..j + 1] == [SUMMON];
      assert At(b, [SUMMON], j);
    }
    if i >= 0 {
      assert b[i] == b[i..i + 1][0];
    }
  }

  // ------------------------------------------------------------ upload consent

  ghost predicate Uploads(events: seq<Event>, path: Bytes) {
    exists result :: Upload(path, result) in events
  }

  // No full-screen program owns the terminal at any callback.
  ghost predicate PlainShell(env: Env) {
    forall k: nat :: !env.alt(k)
  }

  // The k-th callback is about this file, dropped onto a full-screen program.
  predicate DropsOnScreen(params: Params, env: Env, calls: seq<Call>, k: nat, path: Bytes) {
    k < |calls| && calls[k].what.OnDrop? && calls[k].what.path == path && params.uploads && env.alt(k)
  }

  // During a scan only such a drop uploads anything.
  lemma {:induction false} ScanUploadsOnlyDrops(params: Params, env: Env, calls: seq<Call>, n: nat, path: Bytes,
                                                result: Option<Bytes>)
      returns (k: nat)
    requires n <= |calls| && Upload(path, result) in EventsOf(params, env, calls, n)
    ensures DropsOnScreen(params, env, calls, k, path)
  {
    hide CallbackEvents;
    if Upload(path, result) in EventsOf(params, env, calls, n - 1) {
      k := ScanUploadsOnlyDrops(params, env, calls, n - 1, path, result);
    } else {
      CallbackUploads(params, env, n - 1, calls[n - 1].what, path, result);
      k := n - 1;
    }
  }

  lemma CallbackUploads(params: Params, env: Env, k: nat, cb: Callback, path: Bytes, result: Option<Bytes>)
    requires Upload(path, result) in CallbackEvents(params, env, k, cb)
    ensures cb.OnDrop? && cb.path == path && params.uploads && env.alt(k)
  {
  }

  // The last drop onto a plain shell among the first n callbacks.
  function LastAsked(env: Env, calls: seq<Call>, n: nat): Option<PendingUpload>
    requires n <= |calls|
  {
    if n == 0 then None
    else match calls[n - 1].what
      case OnDrop(p, b) => if env.alt(n - 1) then LastAsked(env, calls, n - 1) else Some(PendingUpload(p, b))
      case OnPasteKey => LastAsked(env, calls, n - 1)
  }

  lemma {:induction false} PendingIsLastAsked(params: Params, env: Env, calls: seq<Call>, n: nat)
    requires n <= |calls|
    ensures PendingOf(params, env, calls, n) == if params.uploads then LastAsked(env, calls, n) else None
  {
    if n > 0 {
      PendingIsLastAsked(params, env, calls, n - 1);
    }
  }

  // A run: the reads, and the mode before each of them and after the last.
  datatype Read = Read(bytes: Bytes, env: Env)

  function Next(params: Params, m: Mode, r: Read): Mode
    requires params.Valid()
  {
    Step(params, m, r.bytes, r.env).mode
  }

  ghost predicate IsRun(params: Params, input: seq<Read>, modes: seq<Mode>) {
    && params.Valid() && |modes| == |input| + 1 && modes[0] == START
    && forall i :: 0 <= i < |input| ==> modes[i + 1] == Next(params, modes[i], input[i])
  }

  // The bytes a read offers to the chord and the scanner.
  function Offered(params: Params, r: Read): Bytes {
    BeforeSummon(params, r.bytes).0
  }

  predicate Unclaimed(m: Mode) {
    m.pending == None && m.attaching == None
  }

  // The callbacks made while this read was handled.
  function CallsIn(params: Params, m: Mode, r: Read): seq<Call>
    requires params.Valid()
  {
    if !Unclaimed(m) || ChordAt(params, Offered(params, r)) >= 0 || !params.intercept then []
    else CallsOf(Processed(params.cfg, SessionAnswers(params, r.env), m.scan, Offered(params, r)).segs)
  }

  // The last drop onto a plain shell that the scanner reported meanwhile.
  function Reported(params: Params, m: Mode, r: Read): Option<PendingUpload>
    requires params.Valid()
  {
    LastAsked(r.env, CallsIn(params, m, r), |CallsIn(params, m, r)|)
  }

  // The operator answered the confirm for this path: the read before reported
  // this file, last of all, and this one starts with u, U, y or Y.
  ghost predicate Confirmed(params: Params, input: seq<Read>, modes: seq<Mode>, i: nat, path: Bytes)
    requires IsRun(params, input, modes)
  {
    && 1 <= i < |input| && input[i].bytes != [] && Yes(input[i].bytes[0])
    && var r := Reported(params, modes[i - 1], input[i - 1]);
       r.Some? && r.value.path == path
  }

  // The attach chord opened the minibuffer in read j.
  ghost predicate OpensAt(params: Params, input: seq<Read>, modes: seq<Mode>, j: nat)
    requires IsRun(params, input, modes)
  {
    j < |input| && Unclaimed(modes[j]) && ChordAt(params, Offered(params, input[j])) >= 0
  }

  // What follows the chord in a read that has it.
  function AfterChord(params: Params, r: Read): Bytes {
    var i := ChordAt(params, Offered(params, r));
    if i < 0 then [] else Offered(params, r)[i + |params.attachKey|..]
  }

  // Everything typed or pasted after the chord of read j, up to read n.
  function TypedSince(params: Params, input: seq<Read>, j: nat, n: nat): Bytes
    requires j < n <= |input|
    decreases n
  {
    if n == j + 1 then Strip(AfterChord(params, input[j]))
    else TypedSince(params, input, j, n - 1) + Strip(input[n - 1].bytes)
  }

  // The operator entered the path of this regular file in the minibuffer: the
  // Enter at byte n of what was typed since the chord of read j is in read i,
  // no Esc and no Ctrl-C comes before it, and the path is what is left of the
  // line there.
  ghost predicate Entered(params: Params, input: seq<Read>, modes: seq<Mode>, i: nat, path: Bytes)
    requires IsRun(params, input, modes)
  {
    && path != [] && params.cfg.files.isRegular(path)
    && exists j: nat, n: nat :: EnteredAs(params, input, modes, i, path, j, n)
  }

  ghost predicate EnteredAs(params: Params, input: seq<Read>, modes: seq<Mode>, i: nat, path: Bytes, j: nat, n: nat)
    requires IsRun(params, input, modes)
  {
    && j <= i < |input| && OpensAt(params, input, modes, j)
    && (j < i ==> n >= |TypedSince(params, input, j, i)|)
    && var typed := TypedSince(params, input, j, i + 1);
       EnterAt(typed, n) && path == Expand(params.cfg.files, Kept(typed[..n], 0))
  }

  // What is left of everything typed since a chord, none of it ending the line.
  ghost predicate OpenLine(params: Params, input: seq<Read>, modes: seq<Mode>, n: nat, line: Bytes)
    requires IsRun(params, input, modes)
  {
    exists j: nat :: OpenSince(params, input, modes, n, j, line)
  }

  ghost predicate OpenSince(params: Params, input: seq<Read>, modes: seq<Mode>, n: nat, j: nat, line: Bytes)
    requires IsRun(params, input, modes)
  {
    && j < n <= |input| && OpensAt(params, input, modes, j)
    && var typed := TypedSince(params, input, j, n);
       Open(typed) && line == Kept(typed, 0)
  }

  // The operator dropped this file, in read i, onto a full-screen program.
  ghost predicate DroppedOnScreen(params: Params, input: seq<Read>, modes: seq<Mode>, i: nat, path: Bytes)
    requires IsRun(params, input, modes)
  {
    i < |input| && exists k: nat :: DropsOnScreen(params, input[i].env, CallsIn(params, modes[i], input[i]), k, path)
  }

  // What the read before asked about.
  ghost function Asked(params: Params, input: seq<Read>, modes: seq<Mode>, n: nat): Option<PendingUpload>
    requires IsRun(params, input, modes) && n <= |input|
  {
    if n >= 1 && params.uploads then Reported(params, modes[n - 1], input[n - 1]) else None
  }

  // What the two waiting modes stand for.
  ghost predicate Traced(params: Params, input: seq<Read>, modes: seq<Mode>, n: nat)
    requires IsRun(params, input, modes) && n <= |input|
  {
    && modes[n].pending == Asked(params, input, modes, n)
    && (modes[n].attaching.Some? ==> modes[n].pending == None)
    && forall line :: modes[n].attaching == Some(line) <==> OpenLine(params, input, modes, n, line)
  }

  lemma {:induction false} ModeIsTraced(params: Params, input: seq<Read>, modes: seq<Mode>, n: nat)
    requires IsRun(params, input, modes) && n <= |input|
    ensures Traced(params, input, modes, n)
    decreases n
  {
    hide Reported, OpenLine, KeysStep, Minibuffer, BeforeSummon;
    if n > 0 {
      ModeIsTraced(params, input, modes, n - 1);
      var m, r := modes[n - 1], input[n - 1];
      assert modes[n] == Next(params, m, r);
      if Unclaimed(m) {
        KeysLeave(params, m, r);
        NoDropInChord(params, m, r);
      } else {
        ClaimedReports(params, m, r);
      }
    }
    forall line ensures modes[n].attaching == Some(line) <==> OpenLine(params, input, modes, n, line) {
      if modes[n].attaching == Some(line) {
        LineTraced(params, input, modes, n, line);
      }
      if OpenLine(params, input, modes, n, line) {
        LineHeld(params, input, modes, n, line);
      }
    }
  }

  lemma ClaimedReports(params: Params, m: Mode, r: Read)
    requires params.Valid() && !Unclaimed(m)
    ensures Reported(params, m, r) == None
    ensures m.pending.Some? ==> Next(params, m, r) == m.(pending := None)
    ensures m.pending == None ==>
      Next(params, m, r) == m.(attaching := Minibuffer(params, m.attaching.value, r.bytes, r.env).0)
  {
  }

  // The editor's answer, told from what was typed.
  lemma EditRead(t: Bytes)
    ensures forall line :: Edit([], t) == Editing(line) <==> Open(t) && line == Kept(t, 0)
    ensures forall line :: Edit([], t) == Submitted(line) <==> exists n: nat :: EnterAt(t, n) && line == Kept(t[..n], 0)
  {
    EditMeans(t);
    if n: nat :| EndsAt(t, n) {
      assert EnterAt(t, n) || CancelAt(t, n);
    }
  }

  // An open line was typed since the chord that opened it.
  lemma LineTraced(params: Params, input: seq<Read>, modes: seq<Mode>, n: nat, line: Bytes)
    requires IsRun(params, input, modes) && n <= |input| && modes[n].attaching == Some(line)
    requires n > 0 ==> Traced(params, input, modes, n - 1)
    ensures OpenLine(params, input, modes, n, line)
  {
    hide Reported, KeysStep, Edit, Open, Kept, Strip, BeforeSummon, ChordAt;
    var m, r := modes[n - 1], input[n - 1];
    assert modes[n] == Next(params, m, r);
    if Unclaimed(m) {
      KeysLeave(params, m, r);
      EditRead(TypedSince(params, input, n - 1, n));
      assert OpenSince(params, input, modes, n, n - 1, line);
    } else {
      ClaimedReports(params, m, r);
      var was := m.attaching.value;
      var j: nat :| OpenSince(params, input, modes, n - 1, j, was);
      LineGoesOn(params, input, modes, n - 1, j, was);
      EditRead(TypedSince(params, input, j, n));
      assert OpenSince(params, input, modes, n, j, line);
    }
  }

  // An open line plus one more read is the line edited since the chord.
  lemma LineGoesOn(params: Params, input: seq<Read>, modes: seq<Mode>, i: nat, j: nat, line: Bytes)
    requires IsRun(params, input, modes) && i < |input| && OpenSince(params, input, modes, i, j, line)
    ensures Edit([], TypedSince(params, input, j, i + 1)) == Edit(line, Strip(input[i].bytes))
  {
    EditRead(TypedSince(params, input, j, i));
    EditAppend([], TypedSince(params, input, j, i), Strip(input[i].bytes));
  }

  // And what was typed since a chord is held as the open line.
  lemma {:induction false} LineHeld(params: Params, input: seq<Read>, modes: seq<Mode>, n: nat, line: Bytes)
    requires IsRun(params, input, modes) && n <= |input| && OpenLine(params, input, modes, n, line)
    ensures modes[n].attaching == Some(line) && modes[n].pending == None
  {
    var j: nat :| OpenSince(params, input, modes, n, j, line);
    LineHeldSince(params, input, modes, n, j, line);
  }

  lemma {:induction false} LineHeldSince(params: Params, input: seq<Read>, modes: seq<Mode>, n: nat, j: nat,
                                         line: Bytes)
    requires IsRun(params, input, modes) && n <= |input| && OpenSince(params, input, modes, n, j, line)
    ensures modes[n].attaching == Some(line) && modes[n].pending == None
    decreases n
  {
    hide KeysStep, Edit, Kept, Strip, Reported, BeforeSummon, ChordAt;
    var m, r := modes[n - 1], input[n - 1];
    assert modes[n] == Next(params, m, r);
    EditRead(TypedSince(params, input, j, n));
    assert Edit([], TypedSince(params, input, j, n)) == Editing(line);
    if j == n - 1 {
      KeysLeave(params, m, r);
      NoDropInChord(params, m, r);
    } else {
      var typed, before := TypedSince(params, input, j, n), TypedSince(params, input, j, n - 1);
      assert forall k :: 0 <= k < |before| ==> before[k] == typed[k];
      LineHeldSince(params, input, modes, n - 1, j, Kept(before, 0));
      LineGoesOn(params, input, modes, n - 1, j, Kept(before, 0));
      ClaimedReports(params, m, r);
    }
  }

  lemma NoDropInChord(params: Params, m: Mode, r: Read)
    requires params.Valid()
    ensures ChordAt(params, Offered(params, r)) >= 0 ==> Reported(params, m, r) == None
  {
  }

  // A scan leaves the last drop pending that calls for asking.
  lemma ScanAsks(params: Params, m: Mode, before: Bytes, summon: bool, env: Env)
    requires params.Valid()
    ensures var s := ScanStep(params, m, before, summon, env);
            var calls := CallsOf(Processed(params.cfg, SessionAnswers(params, env), m.scan, before).segs);
            s.mode.pending == (if params.uploads then LastAsked(env, calls, |calls|) else None)
                && s.mode.attaching == None
  {
    var calls := CallsOf(Processed(params.cfg, SessionAnswers(params, env), m.scan, before).segs);
    PendingIsLastAsked(params, env, calls, |calls|);
  }

  // The line a chord leaves open, if its own read does not already end it.
  function SeedOf(params: Params, r: Read): Option<Bytes> {
    match Edit([], Strip(AfterChord(params, r)))
    case Editing(x) => Some(x)
    case _ => None
  }

  // What an unclaimed read leaves behind.
  lemma KeysLeave(params: Params, m: Mode, r: Read)
    requires params.Valid() && Unclaimed(m)
    ensures var s := Next(params, m, r);
            && s.pending == (if params.uploads then Reported(params, m, r) else None)
            && s.attaching == (if ChordAt(params, Offered(params, r)) < 0 then None else SeedOf(params, r))
  {
    NextIsKeys(params, m, r);
    if ChordAt(params, Offered(params, r)) >= 0 {
      ChordLeaves(params, m, r);
    } else {
      ScanLeaves(params, m, r);
    }
  }

  function KeysMode(params: Params, m: Mode, r: Read): Mode
    requires params.Valid()
  {
    KeysStep(params, m, Offered(params, r), BeforeSummon(params, r.bytes).1, r.env).mode
  }

  lemma NextIsKeys(params: Params, m: Mode, r: Read)
    requires params.Valid() && Unclaimed(m)
    ensures Next(params, m, r) == KeysMode(params, m, r)
    ensures Step(params, m, r.bytes, r.env)
         == KeysStep(params, m, Offered(params, r), BeforeSummon(params, r.bytes).1, r.env)
  {
  }

  lemma ScanLeaves(params: Params, m: Mode, r: Read)
    requires params.Valid() && Unclaimed(m) && ChordAt(params, Offered(params, r)) < 0
    ensures KeysMode(params, m, r).attaching == None
    ensures KeysMode(params, m, r).pending == if params.uploads then Reported(params, m, r) else None
  {
    if params.intercept {
      ScanAsks(params, m, Offered(params, r), BeforeSummon(params, r.bytes).1, r.env);
    }
  }

  lemma ChordLeaves(params: Params, m: Mode, r: Read)
    requires params.Valid() && Unclaimed(m) && ChordAt(params, Offered(params, r)) >= 0
    ensures KeysMode(params, m, r) == m.(attaching := SeedOf(params, r)) && Reported(params, m, r) == None
  {
    hide Minibuffer, ChordAt, Edit, Strip, Offered;
    SeededLine(params, AfterChord(params, r), r.env);
  }

  // The minibuffer opened by a chord holds what followed it.
  lemma SeededLine(params: Params, after: Bytes, env: Env)
    ensures var r := if after == [] then (Some([]), []) else Minibuffer(params, [], after, env);
            r.0 == match Edit([], Strip(after)) case Editing(x) => Some(x) case _ => None
  {
    assert Strip([]) == [];
  }

  function EventsAt(params: Params, input: seq<Read>, modes: seq<Mode>, i: nat): seq<Event>
    requires params.Valid() && i < |input| && i < |modes|
  {
    Step(params, modes[i], input[i].bytes, input[i].env).events
  }

  // One of the three acts by which the operator lets a file be uploaded.
  ghost predicate Consents(params: Params, input: seq<Read>, modes: seq<Mode>, i: nat, path: Bytes)
    requires IsRun(params, input, modes) && i < |input|
  {
    || Entered(params, input, modes, i, path)
    || (params.uploads && Confirmed(params, input, modes, i, path))
    || (params.uploads && !PlainShell(input[i].env) && DroppedOnScreen(params, input, modes, i, path))
  }

  // Consent over all runs: a file is uploaded in a read exactly when in that
  // read the operator entered its path in the minibuffer, or answered the
  // confirm that the read before had opened about it, or dropped it onto a
  // full-screen program. With uploading of pastes switched off only the
  // minibuffer is left; in a plain shell the third way is out.
  lemma UploadIffConsent(params: Params, input: seq<Read>, modes: seq<Mode>, i: nat, path: Bytes)
    requires IsRun(params, input, modes) && i < |input|
    ensures Uploads(EventsAt(params, input, modes, i), path) <==> Consents(params, input, modes, i, path)
  {
    hide Uploads, Entered, Confirmed, DroppedOnScreen, Traced, PlainShell;
    ModeIsTraced(params, input, modes, i);
    var m := modes[i];
    if m.pending.Some? {
      ConfirmUploads(params, input, modes, i, path);
    } else if m.attaching.Some? {
      LineUploads(params, input, modes, i, path);
    } else if ChordAt(params, Offered(params, input[i])) >= 0 {
      ChordUploads(params, input, modes, i, path);
    } else {
      ScanUploads(params, input, modes, i, path);
    }
  }

  // A read that answers the confirm.
  lemma ConfirmUploads(params: Params, input: seq<Read>, modes: seq<Mode>, i: nat, path: Bytes)
    requires IsRun(params, input, modes) && i < |input| && Traced(params, input, modes, i)
    requires modes[i].pending.Some?
    ensures Uploads(EventsAt(params, input, modes, i), path)
        <==> params.uploads && Confirmed(params, input, modes, i, path)
    ensures !Entered(params, input, modes, i, path) && !DroppedOnScreen(params, input, modes, i, path)
  {
    hide Reported, KeysStep, Minibuffer, Kept, TypedSince, OpensAt;
    var pu, b, env := modes[i].pending.value, input[i].bytes, input[i].env;
    if b != [] && Yes(b[0]) {
      assert Upload(pu.path, env.upload(0, pu.path)) == Resolved(pu, b, env)[0];
    }
    NotEntered(params, input, modes, i, path);
  }

  // No Enter counts in a read that no minibuffer sees.
  lemma NotEntered(params: Params, input: seq<Read>, modes: seq<Mode>, i: nat, path: Bytes)
    requires IsRun(params, input, modes) && i < |input| && modes[i].attaching == None
    requires Unclaimed(modes[i]) ==> ChordAt(params, Offered(params, input[i])) < 0
    ensures !Entered(params, input, modes, i, path)
  {
    hide Kept, TypedSince, EnterAt, Offered, ChordAt;
    if j: nat, n: nat :| EnteredAs(params, input, modes, i, path, j, n) {
      if j < i {
        OpenUntilEnter(params, input, modes, i, path, j, n);
      }
    }
  }

  // Until the read with the Enter the line is open.
  lemma OpenUntilEnter(params: Params, input: seq<Read>, modes: seq<Mode>, i: nat, path: Bytes, j: nat, n: nat)
    requires IsRun(params, input, modes) && EnteredAs(params, input, modes, i, path, j, n) && j < i
    ensures OpenSince(params, input, modes, i, j, Kept(TypedSince(params, input, j, i), 0))
    ensures modes[i].attaching == Some(Kept(TypedSince(params, input, j, i), 0))
  {
    hide Kept, OpensAt;
    var typed, before := TypedSince(params, input, j, i + 1), TypedSince(params, input, j, i);
    assert typed == before + Strip(input[i].bytes);
    assert forall k :: 0 <= k < |before| ==> before[k] == typed[k];
    LineHeldSince(params, input, modes, i, j, Kept(before, 0));
  }

  // A read of the open minibuffer.
  lemma LineUploads(params: Params, input: seq<Read>, modes: seq<Mode>, i: nat, path: Bytes)
    requires IsRun(params, input, modes) && i < |input| && Traced(params, input, modes, i)
    requires modes[i].attaching.Some?
    ensures Uploads(EventsAt(params, input, modes, i), path) <==> Entered(params, input, modes, i, path)
    ensures !(params.uploads && Confirmed(params, input, modes, i, path))
        && !DroppedOnScreen(params, input, modes, i, path)
  {
    hide KeysStep, Edit, Kept, Strip, TypedSince, OpenLine, Offered, ChordAt, Expand, Reported;
    var line, b, env := modes[i].attaching.value, input[i].bytes, input[i].env;
    MinibufferUploads(params, line, b, env, path);
    assert EventsAt(params, input, modes, i) == Minibuffer(params, line, b, env).1;
    if Uploads(EventsAt(params, input, modes, i), path) {
      var j := SinceChord(params, input, modes, i, line);
      EditRead(TypedSince(params, input, j, i + 1));
      var l :| Edit(line, Strip(b)) == Submitted(l) && path == Expand(params.cfg.files, l);
      var typed := TypedSince(params, input, j, i + 1);
      var n: nat :| EnterAt(typed, n) && l == Kept(typed[..n], 0);
      EnterAfter(params, input, modes, i, j, line, n);
      assert EnteredAs(params, input, modes, i, path, j, n);
    }
    if j: nat, n: nat :| EnteredAs(params, input, modes, i, path, j, n) {
      OpenUntilEnter(params, input, modes, i, path, j, n);
      LineGoesOn(params, input, modes, i, j, line);
      EditRead(TypedSince(params, input, j, i + 1));
    }
  }

  lemma SinceChord(params: Params, input: seq<Read>, modes: seq<Mode>, i: nat, line: Bytes) returns (j: nat)
    requires IsRun(params, input, modes) && i < |input| && OpenLine(params, input, modes, i, line)
    ensures OpenSince(params, input, modes, i, j, line)
    ensures Edit([], TypedSince(params, input, j, i + 1)) == Edit(line, Strip(input[i].bytes))
  {
    j :| OpenSince(params, input, modes, i, j, line);
    LineGoesOn(params, input, modes, i, j, line);
  }

  // An Enter that ends a line still open at read i is in that read.
  lemma EnterAfter(params: Params, input: seq<Read>, modes: seq<Mode>, i: nat, j: nat, line: Bytes, n: nat)
    requires IsRun(params, input, modes) && i < |input| && OpenSince(params, input, modes, i, j, line)
    requires EnterAt(TypedSince(params, input, j, i + 1), n)
    ensures n >= |TypedSince(params, input, j, i)|
  {
    hide Kept, OpensAt;
    var typed, before := TypedSince(params, input, j, i + 1), TypedSince(params, input, j, i);
    assert typed == before + Strip(input[i].bytes);
    assert forall k :: 0 <= k < |before| ==> before[k] == typed[k];
  }

  lemma MinibufferUploads(params: Params, line: Bytes, b: Bytes, env: Env, path: Bytes)
    ensures Uploads(Minibuffer(params, line, b, env).1, path) <==>
      && path != [] && params.cfg.files.isRegular(path)
      && exists l :: Edit(line, Strip(b)) == Submitted(l) && path == Expand(params.cfg.files, l)
  {
    hide Edit, Strip, Expand;
    var e := Edit(line, Strip(b));
    if e.Submitted? {
      var p := Expand(params.cfg.files, e.line);
      if p != [] && params.cfg.files.isRegular(p) {
        assert Upload(p, env.upload(0, p)) == Finished(params, e.line, env)[0];
      }
    }
  }

  // A read with the attach chord.
  lemma ChordUploads(params: Params, input: seq<Read>, modes: seq<Mode>, i: nat, path: Bytes)
    requires IsRun(params, input, modes) && i < |input| && Traced(params, input, modes, i)
    requires Unclaimed(modes[i]) && ChordAt(params, Offered(params, input[i])) >= 0
    ensures Uploads(EventsAt(params, input, modes, i), path) <==> Entered(params, input, modes, i, path)
    ensures !(params.uploads && Confirmed(params, input, modes, i, path))
        && !DroppedOnScreen(params, input, modes, i, path)
  {
    hide Edit, Kept, Strip, Expand, Reported, Offered, ChordAt, Step, Minibuffer;
    var typed := TypedSince(params, input, i, i + 1);
    assert OpensAt(params, input, modes, i) && typed == Strip(AfterChord(params, input[i]));
    ChordEvents(params, modes[i], input[i], path);
    EditRead(typed);
    if Uploads(EventsAt(params, input, modes, i), path) {
      var l :| Edit([], typed) == Submitted(l) && path == Expand(params.cfg.files, l);
      var n: nat :| EnterAt(typed, n) && l == Kept(typed[..n], 0);
      assert EnteredAs(params, input, modes, i, path, i, n);
    }
    if j: nat, n: nat :| EnteredAs(params, input, modes, i, path, j, n) {
      if j < i {
        OpenUntilEnter(params, input, modes, i, path, j, n);
      }
    }
  }

  lemma ChordEvents(params: Params, m: Mode, r: Read, path: Bytes)
    requires params.Valid() && Unclaimed(m) && ChordAt(params, Offered(params, r)) >= 0
    ensures Uploads(Step(params, m, r.bytes, r.env).events, path) <==>
      && path != [] && params.cfg.files.isRegular(path)
      && exists l :: Edit([], Strip(AfterChord(params, r))) == Submitted(l) && path == Expand(params.cfg.files, l)
    ensures CallsIn(params, m, r) == []
  {
    hide BeforeSummon, Edit, Strip, Minibuffer, ChordAt, Expand, Step, SentUnlessEmpty;
    NextIsKeys(params, m, r);
    var pre := Offered(params, r)[..ChordAt(params, Offered(params, r))];
    var after := AfterChord(params, r);
    InMinibuffer(params, m, pre, after, r.env, path);
    MinibufferUploads(params, [], after, r.env, path);
    if after == [] {
      NothingStripped();
    }
  }

  lemma NothingStripped()
    ensures Edit([], Strip([])) == Editing([])
  {
    assert Strip([]) == [];
  }

  lemma InMinibuffer(params: Params, m: Mode, pre: Bytes, after: Bytes, env: Env, path: Bytes)
    ensures Uploads(ChordStep(params, m, pre, after, env).events, path)
        <==> after != [] && Uploads(Minibuffer(params, [], after, env).1, path)
  {
    hide Minibuffer;
    var more := if after == [] then [] else Minibuffer(params, [], after, env).1;
    forall result ensures Upload(path, result) in SentUnlessEmpty(pre) + more <==> Upload(path, result) in more {
    }
  }

  // A read for the scanner.
  lemma ScanUploads(params: Params, input: seq<Read>, modes: seq<Mode>, i: nat, path: Bytes)
    requires IsRun(params, input, modes) && i < |input| && Traced(params, input, modes, i)
    requires Unclaimed(modes[i]) && ChordAt(params, Offered(params, input[i])) < 0
    ensures Uploads(EventsAt(params, input, modes, i), path)
        <==> params.uploads && DroppedOnScreen(params, input, modes, i, path)
    ensures !Entered(params, input, modes, i, path)
    ensures !(params.uploads && Confirmed(params, input, modes, i, path))
    ensures DroppedOnScreen(params, input, modes, i, path) ==> !PlainShell(input[i].env)
  {
    hide Kept, TypedSince, Reported, Offered, ChordAt, Step, BeforeSummon, CallsIn;
    var m, r := modes[i], input[i];
    NotEntered(params, input, modes, i, path);
    ScanEvents(params, m, r, path);
  }

  lemma ScanEvents(params: Params, m: Mode, r: Read, path: Bytes)
    requires params.Valid() && Unclaimed(m) && ChordAt(params, Offered(params, r)) < 0
    ensures Uploads(Step(params, m, r.bytes, r.env).events, path)
        <==> exists k: nat :: DropsOnScreen(params, r.env, CallsIn(params, m, r), k, path)
  {
    hide Scan, BeforeSummon, ChordAt, Step, CallbackEvents, EventsOf;
    NextIsKeys(params, m, r);
    var calls := CallsIn(params, m, r);
    if result :| Upload(path, result) in EventsOf(params, r.env, calls, |calls|) {
      var k := ScanUploadsOnlyDrops(params, r.env, calls, |calls|, path, result);
    }
    if k: nat :| DropsOnScreen(params, r.env, calls, k, path) {
      DropUploads(params, r.env, calls, |calls|, k, path);
    }
  }

  lemma {:induction false} DropUploads(params: Params, env: Env, calls: seq<Call>, n: nat, k: nat, path: Bytes)
    requires k < n <= |calls| && DropsOnScreen(params, env, calls, k, path)
    ensures Upload(path, env.upload(k, path)) in EventsOf(params, env, calls, n)
  {
    if k < n - 1 {
      DropUploads(params, env, calls, n - 1, k, path);
    } else {
      assert CallbackEvents(params, env, k, calls[k].what)[0] == Upload(path, env.upload(k, path));
    }
  }

  // ------------------------------------------------------------ what is injected

  // The path a step staged in the island: an upload that succeeded, or an image
  // of the clipboard.
  function StagedBy(e: Event): Option<Bytes> {
    match e
    case Upload(_, result) => result
    case ReadClipboard(Image(p)) => Some(p)
    case _ => None
  }

  function InjectedBy(e: Event): Option<Bytes> {
    if e.Inject? then Some(e.islandPath) else None
  }

  // Every path staged is injected next, and no other path ever is.
  ghost predicate InjectsStaged(events: seq<Event>) {
    && (forall k :: 0 <= k < |events| ==> InjectsAt(events, k))
    && (events != [] ==> StagedBy(events[|events| - 1]) == None)
  }

  ghost predicate InjectsAt(events: seq<Event>, k: nat)
    requires k < |events|
  {
    InjectedBy(events[k]) == if k == 0 then None else StagedBy(events[k - 1])
  }

  lemma InjectsStagedAppend(a: seq<Event>, b: seq<Event>)
    requires InjectsStaged(a) && InjectsStaged(b)
    ensures InjectsStaged(a + b)
  {
    var c := a + b;
    forall k | 0 <= k < |c| ensures InjectsAt(c, k) {
      if k < |a| {
        assert InjectsAt(a, k);
      } else {
        assert InjectsAt(b, k - |a|);
      }
    }
  }

  lemma StagedInjects(path: Bytes, result: Option<Bytes>)
    ensures InjectsStaged(Staged(path, result))
  {
    if result.Some? {
      assert Staged(path, result) == [Upload(path, result), Inject(result.value)];
    } else {
      assert Staged(path, result) == [Upload(path, result)];
    }
  }

  lemma {:induction false} CallbacksInject(params: Params, env: Env, calls: seq<Call>, n: nat)
    requires n <= |calls|
    ensures InjectsStaged(EventsOf(params, env, calls, n))
  {
    hide InjectsStaged, CallbackEvents;
    if n == 0 {
      NoEventsInject([]);
    } else {
      CallbacksInject(params, env, calls, n - 1);
      CallbackInjects(params, env, n - 1, calls[n - 1].what);
      InjectsStagedAppend(EventsOf(params, env, calls, n - 1), CallbackEvents(params, env, n - 1, calls[n - 1].what));
    }
  }

  lemma CallbackInjects(params: Params, env: Env, k: nat, cb: Callback)
    ensures InjectsStaged(CallbackEvents(params, env, k, cb))
  {
    if cb.OnDrop? {
      StagedInjects(cb.path, env.upload(k, cb.path));
    } else if env.clip(k).Image? {
      var got := env.clip(k);
      assert [ReadClipboard(got)] + [Inject(got.islandPath)] == [ReadClipboard(got), Inject(got.islandPath)];
    } else {
      assert [ReadClipboard(env.clip(k))] + [] == [ReadClipboard(env.clip(k))];
    }
  }

  lemma NoEventsInject(events: seq<Event>)
    requires forall e :: e in events ==> e.Sent?
    ensures InjectsStaged(events)
  {
    forall k | 0 <= k < |events| ensures events[k].Sent? {
      assert events[k] in events;
    }
  }

  lemma MinibufferInjects(params: Params, line: Bytes, b: Bytes, env: Env)
    ensures InjectsStaged(Minibuffer(params, line, b, env).1)
  {
    hide InjectsStaged, Staged, Edit, Strip, Expand;
    NoEventsInject([]);
    var e := Edit(line, Strip(b));
    if e.Submitted? {
      var p := Expand(params.cfg.files, e.line);
      StagedInjects(p, env.upload(0, p));
    }
  }

  lemma ResolvedInjects(pu: PendingUpload, b: Bytes, env: Env)
    ensures InjectsStaged(Resolved(pu, b, env))
  {
    hide InjectsStaged, Staged;
    NoEventsInject([]);
    NoEventsInject([Sent(pu.bracketed), Sent(b)]);
    StagedInjects(pu.path, env.upload(0, pu.path));
    if b != [] {
      NoEventsInject(SentUnlessEmpty(b[1..]));
      InjectsStagedAppend(Staged(pu.path, env.upload(0, pu.path)), SentUnlessEmpty(b[1..]));
    }
  }

  // A path is pasted to the agent right after a file or an image was staged
  // there in that very read, and only then: nothing else is ever injected, and
  // no upload that succeeded goes unannounced.
  lemma InjectIffStaged(params: Params, m: Mode, b: Bytes, env: Env)
    requires params.Valid()
    ensures InjectsStaged(Step(params, m, b, env).events)
  {
    hide InjectsStaged, KeysStep, Resolved, Minibuffer;
    if m.pending.Some? {
      ResolvedInjects(m.pending.value, b, env);
    } else if m.attaching.Some? {
      MinibufferInjects(params, m.attaching.value, b, env);
    } else {
      KeysInject(params, m, BeforeSummon(params, b).0, BeforeSummon(params, b).1, env);
    }
  }

  lemma KeysInject(params: Params, m: Mode, before: Bytes, summon: bool, env: Env)
    requires params.Valid()
    ensures InjectsStaged(KeysStep(params, m, before, summon, env).events)
  {
    hide InjectsStaged, Minibuffer, EventsOf, Scan;
    var i := ChordAt(params, before);
    if i >= 0 {
      var pre, after := before[..i], before[i + |params.attachKey|..];
      NoEventsInject([]);
      NoEventsInject(SentUnlessEmpty(pre));
      MinibufferInjects(params, [], after, env);
      InjectsStagedAppend(SentUnlessEmpty(pre), if after == [] then [] else Minibuffer(params, [], after, env).1);
    } else if params.intercept {
      var r := Processed(params.cfg, SessionAnswers(params, env), m.scan, before);
      var calls := CallsOf(r.segs);
      CallbacksInject(params, env, calls, |calls|);
      NoEventsInject(SentUnlessEmpty(Forwarded(r.segs)));
      InjectsStagedAppend(EventsOf(params, env, calls, |calls|), SentUnlessEmpty(Forwarded(r.segs)));
    } else {
      NoEventsInject(SentUnlessEmpty(before));
    }
  }

  // What a read sends comes after what it staged, but for the bytes before an
  // attach chord.
  ghost predicate SendsLast(events: seq<Event>) {
    forall k :: 0 <= k < |events| && events[k].Sent? ==> forall l :: k < l < |events| ==> events[l].Sent?
  }

  lemma SendsAfterStaging(params: Params, m: Mode, r: Read)
    requires params.Valid()
    requires Unclaimed(m) ==> ChordAt(params, Offered(params, r)) < 0
    ensures SendsLast(Step(params, m, r.bytes, r.env).events)
  {
    hide BeforeSummon, ChordAt, Scan, CallbackEvents, Edit, Strip, Expand;
    if m.pending.Some? {
      var pu := m.pending.value;
      if r.bytes != [] && Yes(r.bytes[0]) {
        SilentThenSent(Staged(pu.path, r.env.upload(0, pu.path)), r.bytes[1..]);
      }
    } else if m.attaching == None && params.intercept {
      var calls := CallsIn(params, m, r);
      CallbacksAreSilent(params, r.env, calls, |calls|);
      var segs := Processed(params.cfg, SessionAnswers(params, r.env), m.scan, Offered(params, r)).segs;
      SilentThenSent(EventsOf(params, r.env, calls, |calls|), Forwarded(segs));
    }
  }

  lemma SilentThenSent(silent: seq<Event>, b: Bytes)
    requires forall e :: e in silent ==> !e.Sent?
    ensures SendsLast(silent + SentUnlessEmpty(b))
  {
  }

  lemma {:induction false} CallbacksAreSilent(params: Params, env: Env, calls: seq<Call>, n: nat)
    requires n <= |calls|
    ensures forall e :: e in EventsOf(params, env, calls, n) ==> !e.Sent?
  {
    if n > 0 {
      CallbacksAreSilent(params, env, calls, n - 1);
    }
  }

  // ------------------------------------------------------------------- all runs

  // The reads among the first n things that happen, and the modes around them.
  function ReadsOf(script: seq<Select>, n: nat): seq<Read>
    requires n <= |script| && forall i :: 0 <= i < n ==> script[i].Chunk?
  {
    seq(n, i requires 0 <= i < n => Read(script[i].bytes, script[i].env))
  }

  function ModesOf(params: Params, script: seq<Select>, n: nat): seq<Mode>
    requires params.Valid() && n <= |script|
  {
    seq(n + 1, i requires 0 <= i <= n => Play(params, script, i).mode)
  }

  // The session loop handles the n-th thing that happens, and it is a read.
  ghost predicate ReadsAt(params: Params, script: seq<Select>, n: nat)
    requires params.Valid()
  {
    n < |script| && Play(params, script, n).reason == None && script[n].Chunk?
  }

  lemma {:induction false} StillRunning(params: Params, script: seq<Select>, n: nat)
    requires params.Valid() && n <= |script| && Play(params, script, n).reason == None
    ensures forall i :: 0 <= i < n ==> ReadsAt(params, script, i)
    decreases n
  {
    hide Step;
    if n > 0 {
      StillRunning(params, script, n - 1);
    }
  }

  lemma ReadPlays(params: Params, script: seq<Select>, n: nat)
    requires params.Valid() && ReadsAt(params, script, n)
    ensures var was, r := Play(params, script, n), Read(script[n].bytes, script[n].env);
            && Play(params, script, n + 1).mode == Next(params, was.mode, r)
            && Play(params, script, n + 1).events == was.events + Step(params, was.mode, r.bytes, r.env).events
  {
    hide Step;
  }

  // The runs above are those of the session loop: what it does up to and with
  // any read is a run, the last read included though it may end the session.
  lemma PlayIsRun(params: Params, script: seq<Select>, n: nat)
    requires params.Valid() && ReadsAt(params, script, n)
    ensures forall i :: 0 <= i <= n ==> script[i].Chunk?
    ensures var input, modes := ReadsOf(script, n + 1), ModesOf(params, script, n + 1);
            && IsRun(params, input, modes)
            && Play(params, script, n + 1).events == Play(params, script, n).events + EventsAt(params, input, modes, n)
  {
    hide Play, Step;
    StillRunning(params, script, n);
    forall i | 0 <= i <= n ensures script[i].Chunk? {
      assert ReadsAt(params, script, i);
    }
    var input, modes := ReadsOf(script, n + 1), ModesOf(params, script, n + 1);
    PlayStarts(params, script);
    forall i | 0 <= i < |input| ensures modes[i + 1] == Next(params, modes[i], input[i]) {
      assert ReadsAt(params, script, i);
      ReadPlays(params, script, i);
    }
    ReadPlays(params, script, n);
  }

  lemma PlayStarts(params: Params, script: seq<Select>)
    requires params.Valid()
    ensures Play(params, script, 0) == Played(START, [], None)
  {
  }

  // A read of the loop in which one of the three things was done about a path.
  ghost predicate Consented(params: Params, script: seq<Select>, i: nat, path: Bytes)
    requires params.Valid()
  {
    && ReadsAt(params, script, i) && (forall j :: 0 <= j <= i ==> script[j].Chunk?)
    && var input, modes := ReadsOf(script, i + 1), ModesOf(params, script, i + 1);
       IsRun(params, input, modes) && Consents(params, input, modes, i, path)
  }

  // So the session loop itself uploads a file exactly with consent: whatever
  // the script, an upload of it is among the events if and only if in one of
  // the reads the operator did one of the three things.
  lemma {:induction false} LoopUploadsIff(params: Params, script: seq<Select>, n: nat, path: Bytes)
    requires params.Valid() && n <= |script|
    ensures Uploads(Play(params, script, n).events, path)
        <==> exists i: nat :: i < n && Consented(params, script, i, path)
    decreases n
  {
    hide Consented, Step;
    if n > 0 {
      LoopUploadsIff(params, script, n - 1, path);
      var was := Play(params, script, n - 1);
      if ReadsAt(params, script, n - 1) {
        ReadUploadsIff(params, script, n - 1, path);
      } else {
        assert Play(params, script, n).events == was.events;
        if Consented(params, script, n - 1, path) {
          OnlyReads(params, script, n - 1, path);
        }
      }
      assert (exists i: nat :: i < n && Consented(params, script, i, path)) <==>
        (exists i: nat :: i < n - 1 && Consented(params, script, i, path)) || Consented(params, script, n - 1, path);
    }
  }

  lemma OnlyReads(params: Params, script: seq<Select>, i: nat, path: Bytes)
    requires params.Valid() && Consented(params, script, i, path)
    ensures ReadsAt(params, script, i)
  {
  }

  lemma ReadUploadsIff(params: Params, script: seq<Select>, i: nat, path: Bytes)
    requires params.Valid() && ReadsAt(params, script, i)
    ensures Uploads(Play(params, script, i + 1).events, path)
        <==> Uploads(Play(params, script, i).events, path) || Consented(params, script, i, path)
  {
    hide Consents, EventsAt, Play, IsRun;
    PlayIsRun(params, script, i);
    var input, modes := ReadsOf(script, i + 1), ModesOf(params, script, i + 1);
    UploadIffConsent(params, input, modes, i, path);
    UploadsAppend(Play(params, script, i).events, EventsAt(params, input, modes, i), path);
  }

  lemma UploadsAppend(a: seq<Event>, b: seq<Event>, path: Bytes)
    ensures Uploads(a + b, path) <==> Uploads(a, path) || Uploads(b, path)
  {
    if result :| Upload(path, result) in a {
      assert Upload(path, result) in a + b;
    }
    if result :| Upload(path, result) in b {
      assert Upload(path, result) in a + b;
    }
  }

  // The read has a summon chord that nothing else claims.
  ghost predicate SummonsAt(params: Params, script: seq<Select>, i: nat)
    requires params.Valid()
  {
    && ReadsAt(params, script, i) && params.summonable && SUMMON in script[i].bytes
    && Unclaimed(Play(params, script, i).mode)
    && ChordAt(params, BeforeSummon(params, script[i].bytes).0) < 0
  }

  // The i-th thing that happens, if the session still runs then, ends it so.
  ghost predicate EndsWith(params: Params, script: seq<Select>, i: nat, why: Reason)
    requires params.Valid() && i < |script|
  {
    && Play(params, script, i).reason == None
    && match script[i]
       case CtxDone => why == ExitCtx
       case StdinDone => why == ExitStdinEOF
       case ReadEnded(r) => why == r
       case Chunk(_, _) => why == ExitSummon && SummonsAt(params, script, i)
  }

  // The session ends for a reason exactly when something that happens while it
  // runs has that reason: it is left for the dashboard by such a summon chord
  // only, unless the connection itself closed with that reason.
  lemma {:induction false} EndedIff(params: Params, script: seq<Select>, n: nat, why: Reason)
    requires params.Valid() && n <= |script|
    ensures Play(params, script, n).reason == Some(why)
        <==> exists i: nat :: i < n && EndsWith(params, script, i, why)
    decreases n
  {
    hide Step, EndsWith;
    if n > 0 {
      EndedIff(params, script, n - 1, why);
      WakeEnds(params, script, n - 1, why);
      if i: nat :| i < n - 1 && EndsWith(params, script, i, why) {
        assert i < n;
      }
    }
  }

  lemma WakeEnds(params: Params, script: seq<Select>, i: nat, why: Reason)
    requires params.Valid() && i < |script|
    ensures var was := Play(params, script, i).reason;
            (Play(params, script, i + 1).reason == Some(why)) <==>
              if was.Some? then was == Some(why) else EndsWith(params, script, i, why)
    ensures Play(params, script, i).reason.Some? ==> !EndsWith(params, script, i, why)
  {
    hide Step;
    var was := Play(params, script, i);
    if was.reason == None && script[i].Chunk? {
      SummonIff(params, was.mode, script[i].bytes, script[i].env);
    }
  }
}
