// Which ways of cutting a bracketed paste into reads still let a dropped file
// be seen.
module PasteSplits {
  import opened Options
  import opened ByteStrings
  import opened ClientPath
  import opened PasteScanner
  import opened PasteLaws

  function Whole(content: Bytes): Bytes {
    BP_START + content + BP_END
  }

  // No configured key lies inside the paste marker, as Ctrl-V and Alt-V do not.
  predicate Separate(cfg: Config) {
    cfg.Valid() && forall t :: t in cfg.triggers ==> !Contains(BP_START, t)
  }

  // Every configuration of the program is like that.
  lemma ProgramIsSeparate(cfg: Config)
    requires ProgramKeys(cfg)
    ensures Separate(cfg)
  {
    forall t, i | t in cfg.triggers ensures t != [] && !At(BP_START, t, i) {
      KeyNotInMarker(t, i);
    }
  }

  lemma KeyNotInMarker(t: Bytes, i: int)
    requires t == CTRL_V || t == ALT_V
    ensures !At(BP_START, t, i)
  {
    if 0 <= i <= |BP_START| - |t| {
      assert BP_START[i..i + |t|][|t| - 1] == BP_START[i + |t| - 1];
      assert i == 0 || i == 1 || i == 2 || i == 3 || i == 4 || i == 5;
    }
  }

  lemma EscapeIsNoPath(files: Files, data: Bytes)
    requires data != [] && (data[0] == 0x1B || data[0] == 0x5B)
    ensures DroppedBare(files, data) == None
  {
    BareNeedsPath(files, data);
    assert data[..1] == [data[0]];
  }

  // Whether a read may end after the first n bytes of the paste and the paste
  // still be seen: not behind the ESC alone, and not where what has come of the
  // content is more than one line or more than 8192 bytes.
  predicate Safe(content: Bytes, n: nat) {
    n != 1 && (|BP_START| <= n < |Whole(content)| ==> OneLine(Whole(content)[|BP_START|..n]))
  }

  predicate OneLine(part: Bytes) {
    |part| <= MAX_SCAN && !HasNewline(part)
  }

  // Where the scanner stands after the first n bytes of the paste.
  function StateAt(content: Bytes, n: nat): State
    requires n <= |Whole(content)|
  {
    if n == |Whole(content)| then IDLE
    else if n < |BP_START| then State(false, Whole(content)[..n])
    else State(true, Whole(content)[|BP_START|..n])
  }

  lemma KeyNotInPrefix(cfg: Config, n: nat, m: Bytes, i: int)
    requires Separate(cfg) && n < |BP_START| && m in cfg.Markers()
    ensures !At(BP_START[..n], m, i)
  {
    PrefixAt(BP_START, n, m, i);
  }

  lemma PrefixAt(s: Bytes, n: nat, m: Bytes, i: int)
    requires n <= |s|
    ensures At(s[..n], m, i) <==> At(s, m, i) && i + |m| <= n
  {
    if 0 <= i && i + |m| <= n {
      assert s[..n][i..i + |m|] == s[i..i + |m|];
    }
  }

  // A read that ends inside the start marker, two bytes or more into it.
  lemma PrefixStep(cfg: Config, ans: Answers, n: nat)
    requires Separate(cfg) && 2 <= n < |BP_START|
    ensures Scan(cfg, ans, false, BP_START[..n], true, 0) == Scanned([Plain([])], State(false, BP_START[..n]))
  {
    var data := BP_START[..n];
    forall m, i | m in cfg.Markers() ensures !At(data, m, i) {
      KeyNotInPrefix(cfg, n, m, i);
    }
    EarliestIsFirst(cfg, data);
    EscapeIsNoPath(cfg.files, data);
    assert Partial(data, BP_START, n) && BP_START in cfg.Markers();
    assert Hold(cfg, data) == n;
    assert data[..0] == [] && data[0..] == data;
  }

  // A start marker at the front of an idle scan opens a paste.
  lemma StartThen(cfg: Config, ans: Answers, rest: Bytes, quiet: bool, k: nat)
    requires cfg.Valid()
    ensures Scan(cfg, ans, false, BP_START + rest, quiet, k) == Then([Plain([])], Scan(cfg, ans, true, rest, quiet, k))
  {
    var data := BP_START + rest;
    EarliestIsFirst(cfg, data);
    assert data[0..|BP_START|] == BP_START;
    assert At(data, BP_START, 0) && BP_START in cfg.Markers();
    assert data[..0] == [] && data[|BP_START|..] == rest;
  }

  // The end marker cannot begin inside itself, so it is found where it is.
  lemma EndFound(content: Bytes)
    requires !Contains(content, BP_END)
    ensures IndexOf(content + BP_END, BP_END) == |content|
  {
    var s := content + BP_END;
    assert s[|content|..|content| + |BP_END|] == BP_END;
    assert At(s, BP_END, |content|);
    var i := IndexOf(s, BP_END);
    if |content| - |BP_END| < i < |content| {
      NoOverlap(content, i);
    } else if i < |content| {
      assert content[i..i + |BP_END|] == s[i..i + |BP_END|];
      assert At(content, BP_END, i);
    }
  }

  lemma NoOverlap(content: Bytes, i: nat)
    requires |content| - |BP_END| < i < |content|
    ensures !At(content + BP_END, BP_END, i)
  {
    var k := |content| - i;
    assert (content + BP_END)[i..i + |BP_END|][k] == BP_END[0];
    assert k == 1 || k == 2 || k == 3 || k == 4 || k == 5;
    assert BP_END[k] != BP_END[0];
  }

  lemma NoEndYet(content: Bytes, n: nat)
    requires !Contains(content, BP_END) && n < |content + BP_END|
    ensures IndexOf((content + BP_END)[..n], BP_END) < 0
  {
    var i := IndexOf((content + BP_END)[..n], BP_END);
    EndFound(content);
    PrefixAt(content + BP_END, n, BP_END, i);
  }

  // A read that ends inside the paste: all of it since the marker is held, or
  // all of it is given up.
  lemma InsideStep(cfg: Config, ans: Answers, content: Bytes, n: nat)
    requires cfg.Valid() && !Contains(content, BP_END) && n < |content + BP_END|
    ensures var part := (content + BP_END)[..n];
            Scan(cfg, ans, true, part, true, 0)
              == if OneLine(part) then Scanned([], State(true, part)) else Scanned([Aborted(part)], IDLE)
  {
    NoEndYet(content, n);
    if n == 0 {
      assert (content + BP_END)[..n] == [];
    }
  }

  // An end marker closes it, and the scan goes on behind it.
  lemma EndThen(cfg: Config, ans: Answers, content: Bytes, rest: Bytes, quiet: bool, k: nat)
    requires cfg.Valid() && !Contains(content, BP_END)
    ensures var p := PasteSegment(cfg, ans, content, k);
            Scan(cfg, ans, true, content + BP_END + rest, quiet, k)
              == Then([p], Scan(cfg, ans, false, rest, quiet && p.taken, k + if p.offer.Some? then 1 else 0))
  {
    hide PasteSegment, IndexOf;
    var data := content + BP_END + rest;
    EndFound(content);
    var j := IndexOf(data, BP_END);
    assert data[|content|..|content| + |BP_END|] == BP_END;
    assert At(data, BP_END, |content|);
    assert data[..|content| + |BP_END|] == content + BP_END;
    assert (content + BP_END)[j..j + |BP_END|] == data[j..j + |BP_END|];
    assert At(content + BP_END, BP_END, j);
    assert data[..|content|] == content && data[|content| + |BP_END|..] == rest;
  }

  // The read that completes the paste.
  lemma EndStep(cfg: Config, ans: Answers, content: Bytes)
    requires cfg.Valid() && !Contains(content, BP_END)
    ensures Scan(cfg, ans, true, content + BP_END, true, 0) == Scanned([PasteSegment(cfg, ans, content, 0)], IDLE)
  {
    assert content + BP_END + [] == content + BP_END;
    EndThen(cfg, ans, content, [], true, 0);
    var p := PasteSegment(cfg, ans, content, 0);
    assert [p] + [] == [p];
  }

  // The whole paste's outcome, its callback having answered as in read i.
  ghost predicate Closed(cfg: Config, ans: Answers, content: Bytes, segs: seq<Segment>) {
    var p := PasteSegment(cfg, ans, content, 0);
    Forwarded(segs) == p.Out() && CallsOf(segs) == p.Calls()
  }

  // What the agent sees and is asked once n bytes are in: nothing before the
  // end, the whole paste's outcome after it.
  ghost predicate Outcome(cfg: Config, ansAt: nat -> Answers, content: Bytes, n: nat, segs: seq<Segment>) {
    if n < |Whole(content)| then Forwarded(segs) == [] && CallsOf(segs) == []
    else exists i: nat :: Closed(cfg, ansAt(i), content, segs)
  }

  lemma NothingSeen()
    ensures Forwarded([]) == [] && CallsOf([]) == [] && Forwarded([Plain([])]) == [] && CallsOf([Plain([])]) == []
  {
    PlainOutputs([]);
  }

  lemma PasteSeen(cfg: Config, ans: Answers, content: Bytes)
    ensures var p := PasteSegment(cfg, ans, content, 0);
            Closed(cfg, ans, content, [p]) && Closed(cfg, ans, content, [Plain([])] + [p])
  {
    hide PasteSegment;
    var p := PasteSegment(cfg, ans, content, 0);
    RawOne(p);
    CallsOne(p);
    assert [Plain([])] + [p] == [Plain([]), p];
    RawTwo(Plain([]), p);
    CallsTwo(Plain([]), p);
  }

  // One read that leaves the paste watched, from any point to any later one.
  lemma ReadStep(cfg: Config, ansAt: nat -> Answers, i: nat, content: Bytes, a: nat, b: nat)
    requires Separate(cfg) && !Contains(content, BP_END) && Safe(content, b)
    requires a <= b <= |Whole(content)| && a < |Whole(content)| && b >= 2
    ensures var r := Processed(cfg, ansAt(i), StateAt(content, a), Whole(content)[a..b]);
            r.state == StateAt(content, b) && Outcome(cfg, ansAt, content, b, r.segs)
  {
    hide Scan, Outcome, Safe;
    var w := Whole(content);
    if a < |BP_START| {
      assert w[..a] + w[a..b] == w[..b];
      ScanFromStart(cfg, ansAt, i, content, b);
    } else {
      assert w[|BP_START|..a] + w[a..b] == w[|BP_START|..b];
      ScanInside(cfg, ansAt, i, content, b);
    }
  }

  lemma ScanInside(cfg: Config, ansAt: nat -> Answers, i: nat, content: Bytes, b: nat)
    requires Separate(cfg) && !Contains(content, BP_END) && Safe(content, b) && |BP_START| <= b <= |Whole(content)|
    ensures var r := Scan(cfg, ansAt(i), true, Whole(content)[|BP_START|..b], true, 0);
            && r.state == StateAt(content, b) && Outcome(cfg, ansAt, content, b, r.segs)
            && r.segs == if b < |Whole(content)| then [] else [PasteSegment(cfg, ansAt(i), content, 0)]
  {
    hide Scan, PasteSegment, Closed;
    var w, s := Whole(content), content + BP_END;
    var n := b - |BP_START|;
    assert w == BP_START + s;
    assert s[..n] == w[|BP_START|..b];
    if n < |s| {
      InsideStep(cfg, ansAt(i), content, n);
      NothingSeen();
    } else {
      assert s[..n] == s;
      EndStep(cfg, ansAt(i), content);
      PasteSeen(cfg, ansAt(i), content);
    }
  }

  lemma ScanFromStart(cfg: Config, ansAt: nat -> Answers, i: nat, content: Bytes, b: nat)
    requires Separate(cfg) && !Contains(content, BP_END) && Safe(content, b) && 2 <= b <= |Whole(content)|
    ensures var r := Scan(cfg, ansAt(i), false, Whole(content)[..b], true, 0);
            r.state == StateAt(content, b) && Outcome(cfg, ansAt, content, b, r.segs)
  {
    hide Scan, PasteSegment, Closed, Safe;
    var w := Whole(content);
    assert w == BP_START + (content + BP_END);
    NothingSeen();
    PasteSeen(cfg, ansAt(i), content);
    if b < |BP_START| {
      assert w[..b] == BP_START[..b];
      PrefixStep(cfg, ansAt(i), b);
    } else {
      var rest := w[|BP_START|..b];
      assert w[..b] == BP_START + rest;
      StartThen(cfg, ansAt(i), rest, true, 0);
      ScanInside(cfg, ansAt, i, content, b);
      assert [Plain([])] + [] == [Plain([])];
    }
  }

  // After a read that ends inside a paste, the paste is still watched for its
  // end exactly when what has come of it is one line of at most 8192 bytes.
  // Otherwise all of it has been sent and nothing was asked.
  lemma StillWatchedIff(cfg: Config, ans: Answers, content: Bytes, n: nat)
    requires Separate(cfg) && !Contains(content, BP_END) && 0 < n < |content + BP_END|
    ensures var part := (content + BP_END)[..n];
            var r := Processed(cfg, ans, IDLE, BP_START + part);
            && CallsOf(r.segs) == []
            && (r.state == State(true, part) <==> OneLine(part))
            && (r.state != State(true, part) ==> r.state == IDLE && Forwarded(r.segs) == BP_START + part)
  {
    hide Scan, CallsOf, Forwarded;
    var part := (content + BP_END)[..n];
    assert IDLE.buf + (BP_START + part) == BP_START + part;
    StartThen(cfg, ans, part, true, 0);
    InsideStep(cfg, ans, content, n);
    var more := ScanOpen(part).segs;
    OutputsAppend([Plain([])], more);
    NothingSeen();
    OpenAsksNothing(part);
    if more != [] {
      AbortedOutputs(part);
    }
  }

  // All the cuts are safe: those after the first k chunks.
  ghost predicate SafelyCut(content: Bytes, chunks: seq<Bytes>, k: nat)
    requires k <= |chunks|
  {
    forall i | 1 <= i <= k :: Safe(content, |Concat(chunks[..i])|)
  }

  // However a paste is cut into reads, so long as every cut is safe, the file it
  // names is offered exactly as if it had come in one: the same callback, the
  // same bytes forwarded, nothing left held.
  lemma SplitPasteSeen(cfg: Config, ansAt: nat -> Answers, chunks: seq<Bytes>, content: Bytes)
    requires Separate(cfg) && !Contains(content, BP_END)
    requires Concat(chunks) == Whole(content) && SafelyCut(content, chunks, |chunks|)
    ensures var r := Reads(cfg, ansAt, chunks);
            r.state == IDLE && exists i: nat :: Closed(cfg, ansAt(i), content, r.segs)
  {
    assert chunks[..|chunks|] == chunks;
    ReadsUpTo(cfg, ansAt, chunks, content, |chunks|);
  }

  lemma {:induction false} ReadsUpTo(cfg: Config, ansAt: nat -> Answers, chunks: seq<Bytes>, content: Bytes, k: nat)
    requires Separate(cfg) && !Contains(content, BP_END)
    requires k <= |chunks| && Concat(chunks) == Whole(content) && SafelyCut(content, chunks, k)
    ensures var r := Reads(cfg, ansAt, chunks[..k]);
            var n := |Concat(chunks[..k])|;
            n <= |Whole(content)| && r.state == StateAt(content, n) && Outcome(cfg, ansAt, content, n, r.segs)
    decreases k
  {
    hide Concat, Outcome, Scan, StateAt, Whole, Safe;
    if k == 0 {
      NothingRead(cfg, ansAt, chunks, content);
    } else {
      var a, b := ChunkAt(chunks, Whole(content), k);
      var before := Reads(cfg, ansAt, chunks[..k - 1]);
      assert chunks[..k][..k - 1] == chunks[..k - 1] && chunks[..k][k - 1] == chunks[k - 1];
      ReadsUpTo(cfg, ansAt, chunks, content, k - 1);
      OneMoreRead(cfg, ansAt, k - 1, content, before, a, b);
    }
  }

  // Where the k-th chunk lies in the stream.
  lemma ChunkAt(chunks: seq<Bytes>, stream: Bytes, k: nat) returns (a: nat, b: nat)
    requires Concat(chunks) == stream && 1 <= k <= |chunks|
    ensures a <= b <= |stream| && a == |Concat(chunks[..k - 1])| && b == |Concat(chunks[..k])|
    ensures chunks[k - 1] == stream[a..b]
  {
    a, b := |Concat(chunks[..k - 1])|, |Concat(chunks[..k])|;
    ConcatPrefix(chunks, k);
    ConcatPrefix(chunks, k - 1);
    assert chunks[..k][..k - 1] == chunks[..k - 1];
    assert Concat(chunks[..k]) == Concat(chunks[..k - 1]) + chunks[k - 1];
  }

  lemma NothingRead(cfg: Config, ansAt: nat -> Answers, chunks: seq<Bytes>, content: Bytes)
    requires cfg.Valid()
    ensures Concat(chunks[..0]) == [] && Reads(cfg, ansAt, chunks[..0]) == Scanned([], IDLE)
    ensures StateAt(content, 0) == IDLE && Outcome(cfg, ansAt, content, 0, [])
  {
    assert Whole(content)[..0] == [];
  }

  // One read more, once any reads have brought in the first a bytes.
  lemma OneMoreRead(cfg: Config, ansAt: nat -> Answers, i: nat, content: Bytes, before: Scanned, a: nat, b: nat)
    requires Separate(cfg) && !Contains(content, BP_END) && a <= b <= |Whole(content)| && Safe(content, b)
    requires before.state == StateAt(content, a) && Outcome(cfg, ansAt, content, a, before.segs)
    ensures var now := Processed(cfg, ansAt(i), before.state, Whole(content)[a..b]);
            now.state == StateAt(content, b) && Outcome(cfg, ansAt, content, b, before.segs + now.segs)
  {
    hide Whole, Closed;
    var now := Processed(cfg, ansAt(i), before.state, Whole(content)[a..b]);
    OutputsAppend(before.segs, now.segs);
    if b == 0 || a == |Whole(content)| {
      EmptyRead(cfg, ansAt(i), content, a);
      assert Whole(content)[a..b] == [];
      assert before.segs + [] == before.segs;
    } else {
      hide Scan;
      ReadStep(cfg, ansAt, i, content, a, b);
      OutcomeAppend(cfg, ansAt, content, b, before.segs, now.segs);
    }
  }

  lemma EmptyRead(cfg: Config, ans: Answers, content: Bytes, n: nat)
    requires cfg.Valid() && (n == 0 || n == |Whole(content)|)
    ensures StateAt(content, n) == IDLE && Processed(cfg, ans, IDLE, []) == Scanned([], IDLE)
  {
    assert Whole(content)[..0] == [];
  }

  lemma OutcomeAppend(cfg: Config, ansAt: nat -> Answers, content: Bytes, n: nat, a: seq<Segment>, b: seq<Segment>)
    requires Forwarded(a) == [] && CallsOf(a) == [] && Outcome(cfg, ansAt, content, n, b)
    ensures Outcome(cfg, ansAt, content, n, a + b)
  {
    OutputsAppend(a, b);
    assert [] + Forwarded(b) == Forwarded(b) && [] + CallsOf(b) == CallsOf(b);
    if n >= |Whole(content)| {
      var i: nat :| Closed(cfg, ansAt(i), content, b);
      assert Closed(cfg, ansAt(i), content, a + b);
    }
  }

  lemma {:induction false} ConcatPrefix(chunks: seq<Bytes>, k: nat)
    requires k <= |chunks|
    ensures Concat(chunks[..k]) <= Concat(chunks)
    decreases |chunks| - k
  {
    if k == |chunks| {
      assert chunks[..k] == chunks;
    } else {
      ConcatPrefix(chunks, k + 1);
      assert chunks[..k + 1][..k] == chunks[..k];
    }
  }

  // --------------------------------------------------- a cut that is not safe

  // Every drop asked about during a scan is within the bytes scanned.
  ghost predicate Fit(calls: seq<Call>, n: int) {
    forall c :: c in calls && c.what.OnDrop? ==> |c.what.bracketed| <= n
  }

  lemma {:induction false} DropsFit(cfg: Config, ans: Answers, inPaste: bool, data: Bytes, quiet: bool, k: nat)
    requires cfg.Valid()
    ensures Fit(CallsOf(Scan(cfg, ans, inPaste, data, quiet, k).segs), |State(inPaste, data).Held()|)
    decreases |data|
  {
    hide TurnOf, Fit, RawOf, CallsOf;
    if data == [] {
      NoCallsFit(|State(inPaste, data).Held()|);
    } else {
      TurnFits(cfg, ans, inPaste, data, quiet, k);
      match TurnOf(cfg, ans, inPaste, data, quiet, k)
      case End(_, _) =>
      case Go(segs, inPaste', rest, quiet', k') =>
        DropsFit(cfg, ans, inPaste', rest, quiet', k');
        var more := Scan(cfg, ans, inPaste', rest, quiet', k').segs;
        OutputsAppend(segs, more);
        FitAppend(CallsOf(segs), CallsOf(more), |State(inPaste, data).Held()|, |State(inPaste', rest).Held()|);
    }
  }

  lemma NoCallsFit(n: int)
    ensures Fit(CallsOf([]), n)
  {
  }

  lemma FitAppend(a: seq<Call>, b: seq<Call>, n: int, m: int)
    requires Fit(a, n) && Fit(b, m) && m <= n
    ensures Fit(a + b, n)
  {
  }

  lemma TurnFits(cfg: Config, ans: Answers, inPaste: bool, data: Bytes, quiet: bool, k: nat)
    requires cfg.Valid() && data != []
    ensures var t := TurnOf(cfg, ans, inPaste, data, quiet, k);
            && Fit(CallsOf(t.segs), |State(inPaste, data).Held()|)
            && (t.Go? ==> |State(t.inPaste, t.rest).Held()| <= |State(inPaste, data).Held()|)
  {
    TurnConserves(cfg, ans, inPaste, data, quiet, k);
    if inPaste {
      PasteFits(cfg, ans, data, k);
    } else {
      match Earliest(cfg, data)
      case None => TailFits(cfg, ans, data, quiet, k);
      case Some(f) => MarkerFits(cfg, ans, data, f, k);
    }
  }

  lemma PasteFits(cfg: Config, ans: Answers, data: Bytes, k: nat)
    ensures var j := IndexOf(data, BP_END);
            Fit(if j < 0 then CallsOf(ScanOpen(data).segs) else CallsOf([PasteSegment(cfg, ans, data[..j], k)]),
                |BP_START| + |data|)
  {
    var j := IndexOf(data, BP_END);
    if j < 0 {
      OpenAsksNothing(data);
    } else {
      CallsOne(PasteSegment(cfg, ans, data[..j], k));
    }
  }

  lemma TailFits(cfg: Config, ans: Answers, data: Bytes, quiet: bool, k: nat)
    ensures Fit(CallsOf(ScanTail(cfg, ans, data, quiet, k).segs), |data|)
  {
    hide DroppedBare, Hold, CallsOf, TailOf;
    var drop := if cfg.hasDrop && quiet then DroppedBare(cfg.files, data) else None;
    TailOfCalls(data, drop, drop.Some? && ans(k, OnDrop(drop.value, data)), Hold(cfg, data));
  }

  lemma MarkerFits(cfg: Config, ans: Answers, data: Bytes, f: Found, k: nat)
    requires f.idx + f.len <= |data|
    ensures Fit(CallsOf(MarkerStep(cfg, ans, data, f, k)), |data|)
  {
    if f.isPaste {
      CallsOne(Plain(data[..f.idx]));
    } else {
      var step := MarkerStep(cfg, ans, data, f, k);
      CallsTwo(step[0], step[1]);
    }
  }

  // So over the reads: none asks about more than what has come and is not yet
  // accounted for.
  lemma ReadFits(cfg: Config, ansAt: nat -> Answers, chunks: seq<Bytes>)
    requires cfg.Valid() && chunks != []
    ensures var n := |chunks| - 1;
            var before := Reads(cfg, ansAt, chunks[..n]);
            Fit(CallsOf(Processed(cfg, ansAt(n), before.state, chunks[n]).segs),
                |Concat(chunks)| - |RawOf(before.segs)|)
  {
    hide Fit, Scan, RawOf;
    var n := |chunks| - 1;
    var before := Reads(cfg, ansAt, chunks[..n]);
    ReadsConserve(cfg, ansAt, chunks[..n]);
    DropsFit(cfg, ansAt(n), before.state.inPaste, before.state.buf + chunks[n], true, 0);
  }

  // Once a byte is accounted for before a stream is complete, nothing as long
  // as the stream is ever asked about.
  lemma {:induction false} NeverWhole(cfg: Config, ansAt: nat -> Answers, chunks: seq<Bytes>, k: nat, size: nat)
    requires cfg.Valid() && k <= |chunks| && |Concat(chunks)| <= size && |Concat(chunks[..k])| < size
    requires RawOf(Reads(cfg, ansAt, chunks[..k]).segs) != []
    ensures Fit(CallsOf(Reads(cfg, ansAt, chunks).segs), size - 1) && RawOf(Reads(cfg, ansAt, chunks).segs) != []
    decreases |chunks|
  {
    hide Fit, CallsOf, RawOf, Scan;
    if k == |chunks| {
      assert chunks[..k] == chunks;
      ReadsFit(cfg, ansAt, chunks, size - 1);
    } else {
      var n := |chunks| - 1;
      assert chunks[..n][..k] == chunks[..k];
      NeverWhole(cfg, ansAt, chunks[..n], k, size);
      var before := Reads(cfg, ansAt, chunks[..n]);
      var now := Processed(cfg, ansAt(n), before.state, chunks[n]);
      ReadFits(cfg, ansAt, chunks);
      OutputsAppend(before.segs, now.segs);
      FitMore(CallsOf(now.segs), |Concat(chunks)| - |RawOf(before.segs)|, size - 1);
      FitAppend(CallsOf(before.segs), CallsOf(now.segs), size - 1, size - 1);
    }
  }

  lemma FitMore(calls: seq<Call>, m: int, n: int)
    requires Fit(calls, m) && m <= n
    ensures Fit(calls, n)
  {
  }

  lemma {:induction false} ReadsFit(cfg: Config, ansAt: nat -> Answers, chunks: seq<Bytes>, size: nat)
    requires cfg.Valid() && |Concat(chunks)| <= size
    ensures Fit(CallsOf(Reads(cfg, ansAt, chunks).segs), size)
    decreases |chunks|
  {
    hide Fit, CallsOf, RawOf, Scan;
    if chunks == [] {
      NoCallsFit(size);
    } else {
      var n := |chunks| - 1;
      ReadsFit(cfg, ansAt, chunks[..n], size);
      var before := Reads(cfg, ansAt, chunks[..n]);
      var now := Processed(cfg, ansAt(n), before.state, chunks[n]);
      ReadFits(cfg, ansAt, chunks);
      OutputsAppend(before.segs, now.segs);
      FitMore(CallsOf(now.segs), |Concat(chunks)| - |RawOf(before.segs)|, size);
      FitAppend(CallsOf(before.segs), CallsOf(now.segs), size, size);
    }
  }

  // A cut that is not safe, the cuts before it being so, leaves the scanner idle
  // with all that came sent on.
  lemma UnsafeCut(cfg: Config, ansAt: nat -> Answers, chunks: seq<Bytes>, content: Bytes, k: nat)
    requires Separate(cfg) && !Contains(content, BP_END) && Concat(chunks) == Whole(content)
    requires 1 <= k <= |chunks| && SafelyCut(content, chunks, k - 1) && !Safe(content, |Concat(chunks[..k])|)
    ensures |Concat(chunks[..k])| < |Whole(content)| && RawOf(Reads(cfg, ansAt, chunks[..k]).segs) != []
  {
    hide Concat, Outcome, Scan, RawOf, OneLine;
    var a, b := ChunkAt(chunks, Whole(content), k);
    var before := Reads(cfg, ansAt, chunks[..k - 1]);
    assert chunks[..k][..k - 1] == chunks[..k - 1] && chunks[..k][k - 1] == chunks[k - 1];
    ReadsUpTo(cfg, ansAt, chunks, content, k - 1);
    UnsafeRead(cfg, ansAt(k - 1), content, a, b);
    ReadsConserve(cfg, ansAt, chunks[..k]);
  }

  lemma UnsafeRead(cfg: Config, ans: Answers, content: Bytes, a: nat, b: nat)
    requires Separate(cfg) && !Contains(content, BP_END) && a <= b <= |Whole(content)| && a != 1
    requires !Safe(content, b) && (a >= |BP_START| && a < |Whole(content)| ==> OneLine(Whole(content)[|BP_START|..a]))
    ensures 1 <= b < |Whole(content)|
    ensures Processed(cfg, ans, StateAt(content, a), Whole(content)[a..b]).state == IDLE
  {
    hide Scan, OneLine;
    var w, s := Whole(content), content + BP_END;
    assert w == BP_START + s;
    if b == 1 {
      assert a == 0 || a == 1;
      assert w[..0] == [] && w[0..1] == [w[0]];
      SingleByteNeverHeld(cfg, ans, w[0]);
    } else {
      var n := b - |BP_START|;
      assert s[..n] == w[|BP_START|..b];
      InsideStep(cfg, ans, content, n);
      if a < |BP_START| {
        assert w[..a] + w[a..b] == w[..b] == BP_START + s[..n];
        StartThen(cfg, ans, s[..n], true, 0);
      } else {
        assert w[|BP_START|..a] + w[a..b] == w[|BP_START|..b];
      }
    }
  }

  // The callback was asked about this very paste.
  ghost predicate AskedAbout(segs: seq<Segment>, path: Bytes, content: Bytes) {
    exists handled :: Call(OnDrop(path, Whole(content)), handled) in CallsOf(segs)
  }

  // Detection, exactly: of a paste that names a file, over every way of cutting
  // it into reads and whatever the callbacks answer, the file is asked about if
  // and only if no cut falls behind the ESC alone, and none where what has come
  // of the content is long or more than a line.
  lemma SplitSeenIff(cfg: Config, ansAt: nat -> Answers, chunks: seq<Bytes>, content: Bytes, path: Bytes)
    requires Separate(cfg) && cfg.hasDrop && !Contains(content, BP_END)
    requires DroppedLocal(cfg.files, content) == Some(path)
    requires Concat(chunks) == Whole(content)
    ensures AskedAbout(Reads(cfg, ansAt, chunks).segs, path, content) <==> SafelyCut(content, chunks, |chunks|)
  {
    hide Reads, Safe, Whole, DroppedLocal, Concat, CallsOf;
    if SafelyCut(content, chunks, |chunks|) {
      SplitPasteSeen(cfg, ansAt, chunks, content);
      var i: nat :| Closed(cfg, ansAt(i), content, Reads(cfg, ansAt, chunks).segs);
      ClosedOffers(cfg, ansAt(i), content, path, Reads(cfg, ansAt, chunks).segs);
    } else {
      var k := FirstUnsafe(content, chunks, |chunks|);
      UnsafeCut(cfg, ansAt, chunks, content, k);
      NeverWhole(cfg, ansAt, chunks, k, |Whole(content)|);
    }
  }

  lemma ClosedOffers(cfg: Config, ans: Answers, content: Bytes, path: Bytes, segs: seq<Segment>)
    requires cfg.hasDrop && DroppedLocal(cfg.files, content) == Some(path) && Closed(cfg, ans, content, segs)
    ensures AskedAbout(segs, path, content)
  {
    hide DroppedLocal;
    var p := PasteSegment(cfg, ans, content, 0);
    assert p.Calls()[0] == Call(OnDrop(path, Whole(content)), p.taken);
    assert p.Calls()[0] in CallsOf(segs);
  }

  lemma {:induction false} FirstUnsafe(content: Bytes, chunks: seq<Bytes>, n: nat) returns (k: nat)
    requires n <= |chunks| && !SafelyCut(content, chunks, n)
    ensures 1 <= k <= n && SafelyCut(content, chunks, k - 1) && !Safe(content, |Concat(chunks[..k])|)
  {
    if SafelyCut(content, chunks, n - 1) {
      k := n;
    } else {
      k := FirstUnsafe(content, chunks, n - 1);
    }
  }

  // After a lone ESC nobody is asked about the paste, whatever its content and
  // however the rest is cut.
  lemma LoneEscapeMisses(cfg: Config, ansAt: nat -> Answers, chunks: seq<Bytes>, content: Bytes, path: Bytes)
    requires Separate(cfg) && !Contains(content, BP_END)
    requires Concat(chunks) == Whole(content) && chunks != [] && |chunks[0]| == 1
    ensures !AskedAbout(Reads(cfg, ansAt, chunks).segs, path, content)
  {
    hide Reads, CallsOf, OneLine;
    assert chunks[..1] == [chunks[0]] && [chunks[0]][..0] == [];
    assert Concat([chunks[0]]) == [] + chunks[0];
    UnsafeCut(cfg, ansAt, chunks, content, 1);
    NeverWhole(cfg, ansAt, chunks, 1, |Whole(content)|);
  }

  const PATH: Bytes := [0x2F, 0x66] // "/f"
  const LINE: Bytes := [0x2F, 0x66, 0x0A]

  // A path pasted with its newline names the file: seen in one read, missed when
  // a read ends behind the newline.
  lemma NewlineCutMisses(cfg: Config, ansAt: nat -> Answers)
    requires Separate(cfg) && cfg.hasDrop && cfg.files.isRegular(PATH)
    ensures var w := Whole(LINE);
            && DroppedLocal(cfg.files, LINE) == Some(PATH)
            && AskedAbout(Reads(cfg, ansAt, [w]).segs, PATH, LINE)
            && !AskedAbout(Reads(cfg, ansAt, [w[..9], w[9..]]).segs, PATH, LINE)
  {
    hide Reads, CallsOf, DroppedLocal, AskedAbout;
    var w := Whole(LINE);
    LineNamesFile(cfg.files);
    NoEndInLine();
    var one, two := [w], [w[..9], w[9..]];
    assert one[..0] == [] && one[..1] == one;
    assert Concat(one) == [] + w == w;
    SplitSeenIff(cfg, ansAt, one, LINE, PATH);
    assert two[..1] == [w[..9]] && two[..2] == two && two[..1][..0] == [];
    assert Concat([w[..9]]) == [] + w[..9] == w[..9];
    assert Concat(two) == w[..9] + w[9..] == w;
    assert w[|BP_START|..9][2] == LF;
    assert !Safe(LINE, 9);
    SplitSeenIff(cfg, ansAt, two, LINE, PATH);
  }

  lemma NoEndInLine()
    ensures !Contains(LINE, BP_END)
  {
  }

  lemma LineNamesFile(files: Files)
    requires files.isRegular(PATH)
    ensures DroppedLocal(files, LINE) == Some(PATH)
  {
    assert LINE[..2] == PATH;
    assert TrimRight(LINE) == TrimRight(PATH) == PATH;
    assert TrimSpace(LINE) == PATH == TrimSpace(PATH) && TrimQuotes(PATH) == PATH;
    NothingToUnescape(PATH);
  }
}
