// What the paste scanner promises over any sequence of reads.
module PasteLaws {
  import opened Options
  import opened ByteStrings
  import opened ClientPath
  import opened PasteScanner

  // ------------------------------------------------------------- conservation

  lemma RawOne(seg: Segment)
    ensures RawOf([seg]) == seg.Raw() && Forwarded([seg]) == seg.Out()
  {
    assert [seg][1..] == [];
    assert RawOf([seg]) == seg.Raw() + [];
    assert Forwarded([seg]) == seg.Out() + [];
  }

  lemma RawTwo(a: Segment, b: Segment)
    ensures RawOf([a, b]) == a.Raw() + b.Raw() && Forwarded([a, b]) == a.Out() + b.Out()
  {
    assert [a, b][1..] == [b];
    RawOne(b);
  }

  lemma Assoc(a: Bytes, b: Bytes, c: Bytes)
    ensures a + b + c == a + (b + c)
  {
  }

  // One turn accounts for every byte it consumes.
  lemma TurnConserves(cfg: Config, ans: Answers, inPaste: bool, data: Bytes, quiet: bool, k: nat)
    requires cfg.Valid() && data != []
    ensures match TurnOf(cfg, ans, inPaste, data, quiet, k)
      case End(segs, state) => RawOf(segs) + state.Held() == State(inPaste, data).Held()
      case Go(segs, inPaste', rest, _, _) => RawOf(segs) + State(inPaste', rest).Held() == State(inPaste, data).Held()
  {
    hide RawOf, ScanTail, ScanOpen, MarkerStep, PasteSegment, Earliest, IndexOf;
    if !inPaste {
      match Earliest(cfg, data)
      case None => TailConserves(cfg, ans, data, quiet, k);
      case Some(f) => MarkerConserves(cfg, ans, data, f, k);
    } else {
      InPasteConserves(cfg, ans, data, k);
    }
  }

  lemma InPasteConserves(cfg: Config, ans: Answers, data: Bytes, k: nat)
    ensures var j := IndexOf(data, BP_END);
            if j < 0 then RawOf(ScanOpen(data).segs) + ScanOpen(data).state.Held() == BP_START + data
            else RawOf([PasteSegment(cfg, ans, data[..j], k)]) + data[j + |BP_END|..] == BP_START + data
  {
    var j := IndexOf(data, BP_END);
    if j >= 0 {
      RawOne(PasteSegment(cfg, ans, data[..j], k));
      var c, rest := data[..j], data[j + |BP_END|..];
      assert data == c + BP_END + rest;
      Assoc(BP_START, c + BP_END, rest);
      Assoc(BP_START, c, BP_END);
    } else {
      RawOne(Aborted(data));
    }
  }

  lemma TailConserves(cfg: Config, ans: Answers, data: Bytes, quiet: bool, k: nat)
    ensures var s := ScanTail(cfg, ans, data, quiet, k); RawOf(s.segs) + s.state.Held() == data
  {
    var drop := if cfg.hasDrop && quiet then DroppedBare(cfg.files, data) else None;
    hide DroppedBare, Hold, RawOf, TailOf;
    TailOfConserves(data, drop, drop.Some? && ans(k, OnDrop(drop.value, data)), Hold(cfg, data));
  }

  lemma TailOfConserves(data: Bytes, drop: Option<Bytes>, taken: bool, keep: nat)
    requires (taken ==> drop.Some?) && keep <= |data|
    ensures var s := TailOf(data, drop, taken, keep); RawOf(s.segs) + s.state.Held() == data
  {
    hide RawOf, Forwarded, CallsOf, TailSegments;
    if taken {
      BareOutputs(data, drop.value);
    } else {
      var cut := |data| - keep;
      TailOutputs(data, drop, cut);
      assert data[..cut] + data[cut..] == data;
    }
  }

  lemma MarkerConserves(cfg: Config, ans: Answers, data: Bytes, f: Found, k: nat)
    requires cfg.Valid() && Earliest(cfg, data) == Some(f)
    ensures RawOf(MarkerStep(cfg, ans, data, f, k)) + State(f.isPaste, data[f.idx + f.len..]).Held() == data
  {
    hide RawOf, Earliest;
    EarliestIsFirst(cfg, data);
    if f.isPaste {
      StartConserves(data, f.idx);
    } else {
      KeyConserves(data, f.idx, f.len, cfg.hasKey, cfg.hasKey && ans(k, OnPasteKey));
    }
  }

  lemma StartConserves(data: Bytes, i: nat)
    requires At(data, BP_START, i)
    ensures RawOf([Plain(data[..i])]) + (BP_START + data[i + |BP_START|..]) == data
  {
    RawOne(Plain(data[..i]));
    ThreeParts(data, i, |BP_START|);
    Assoc(data[..i], BP_START, data[i + |BP_START|..]);
  }

  lemma KeyConserves(data: Bytes, i: nat, n: nat, asked: bool, handled: bool)
    requires i + n <= |data|
    ensures RawOf([Plain(data[..i]), Trigger(data[i..i + n], asked, handled)]) + data[i + n..] == data
  {
    RawTwo(Plain(data[..i]), Trigger(data[i..i + n], asked, handled));
    ThreeParts(data, i, n);
  }

  lemma ThreeParts(data: Bytes, i: nat, n: nat)
    requires i + n <= |data|
    ensures data == data[..i] + data[i..i + n] + data[i + n..]
  {
  }

  lemma {:induction false} ScanConserves(cfg: Config, ans: Answers, inPaste: bool, data: Bytes, quiet: bool, k: nat)
    requires cfg.Valid()
    ensures var s := Scan(cfg, ans, inPaste, data, quiet, k);
            RawOf(s.segs) + s.state.Held() == State(inPaste, data).Held()
    decreases |data|
  {
    if data != [] {
      TurnConserves(cfg, ans, inPaste, data, quiet, k);
      match TurnOf(cfg, ans, inPaste, data, quiet, k)
      case End(_, _) =>
      case Go(segs, inPaste', rest, quiet', k') =>
        ScanConserves(cfg, ans, inPaste', rest, quiet', k');
        var s := Scan(cfg, ans, inPaste', rest, quiet', k');
        OutputsAppend(segs, s.segs);
        Assoc(RawOf(segs), RawOf(s.segs), s.state.Held());
    }
  }

  // Whatever the callbacks answer, the bytes held before plus the bytes read
  // are the bytes of the segments plus the bytes held after.
  lemma CallConserves(cfg: Config, ans: Answers, s: State, input: Bytes)
    requires cfg.Valid()
    ensures var r := Processed(cfg, ans, s, input); RawOf(r.segs) + r.state.Held() == s.Held() + input
  {
    ScanConserves(cfg, ans, s.inPaste, s.buf + input, true, 0);
    assert s.Held() + input == State(s.inPaste, s.buf + input).Held();
  }

  // ------------------------------------------------------ what may be swallowed

  // A segment's bytes are withheld from the agent only for one of these
  // reasons, and then the callback said so.
  predicate Accounted(cfg: Config, seg: Segment) {
    match seg
    case Trigger(b, asked, handled) => b in cfg.triggers && asked == cfg.hasKey && (handled ==> asked)
    case Paste(c, offer, taken) =>
      && !Contains(c, BP_END)
      && offer == (if cfg.hasDrop then DroppedLocal(cfg.files, c) else None) && (taken ==> offer.Some?)
    case Bare(b, p) => cfg.hasDrop && DroppedBare(cfg.files, b) == Some(p) && Earliest(cfg, b) == None
    case _ => true
  }

  lemma EndIsFirst(data: Bytes, j: nat)
    requires IndexOf(data, BP_END) == j
    ensures !Contains(data[..j], BP_END)
  {
    var c := data[..j];
    if Contains(c, BP_END) {
      var i := IndexOf(c, BP_END);
      assert data[i..i + |BP_END|] == c[i..i + |BP_END|];
      assert At(data, BP_END, i);
    }
  }

  lemma TurnAccounted(cfg: Config, ans: Answers, inPaste: bool, data: Bytes, quiet: bool, k: nat)
    requires cfg.Valid() && data != []
    ensures forall seg :: seg in TurnOf(cfg, ans, inPaste, data, quiet, k).segs ==> Accounted(cfg, seg)
  {
    if inPaste {
      if IndexOf(data, BP_END) >= 0 {
        EndIsFirst(data, IndexOf(data, BP_END));
      }
    } else {
      match Earliest(cfg, data)
      case None => TailAccounted(cfg, ans, data, quiet, k);
      case Some(f) => MarkerAccounted(cfg, ans, data, f, k);
    }
  }

  lemma MarkerAccounted(cfg: Config, ans: Answers, data: Bytes, f: Found, k: nat)
    requires cfg.Valid() && Earliest(cfg, data) == Some(f)
    ensures forall seg :: seg in MarkerStep(cfg, ans, data, f, k) ==> Accounted(cfg, seg)
  {
    EarliestIsFirst(cfg, data);
  }

  lemma TailAccounted(cfg: Config, ans: Answers, data: Bytes, quiet: bool, k: nat)
    requires Earliest(cfg, data) == None
    ensures forall seg :: seg in ScanTail(cfg, ans, data, quiet, k).segs ==> Accounted(cfg, seg)
  {
  }

  // Where an unwrapped drop is taken: at the end of a call in which nothing
  // had been forwarded.
  ghost predicate BareStandsAlone(segs: seq<Segment>, quiet: bool) {
    forall i :: 0 <= i < |segs| && segs[i].Bare? ==> quiet && i == |segs| - 1 && Forwarded(segs[..i]) == []
  }

  lemma {:induction false} ScanAccounted(cfg: Config, ans: Answers, inPaste: bool, data: Bytes, quiet: bool, k: nat)
    requires cfg.Valid()
    ensures var s := Scan(cfg, ans, inPaste, data, quiet, k);
            (forall seg :: seg in s.segs ==> Accounted(cfg, seg)) && BareStandsAlone(s.segs, quiet)
    decreases |data|
  {
    if data != [] {
      TurnAccounted(cfg, ans, inPaste, data, quiet, k);
      match TurnOf(cfg, ans, inPaste, data, quiet, k)
      case End(_, _) =>
      case Go(segs, inPaste', rest, quiet', k') =>
        ScanAccounted(cfg, ans, inPaste', rest, quiet', k');
        GoKeepsQuiet(cfg, ans, inPaste, data, quiet, k);
        AlonePrepend(segs, Scan(cfg, ans, inPaste', rest, quiet', k').segs, quiet, quiet');
    }
  }

  lemma GoKeepsQuiet(cfg: Config, ans: Answers, inPaste: bool, data: Bytes, quiet: bool, k: nat)
    requires cfg.Valid() && data != [] && TurnOf(cfg, ans, inPaste, data, quiet, k).Go?
    ensures var t := TurnOf(cfg, ans, inPaste, data, quiet, k);
            (t.quiet ==> quiet && Forwarded(t.segs) == []) && forall seg :: seg in t.segs ==> !seg.Bare?
  {
    var t := TurnOf(cfg, ans, inPaste, data, quiet, k);
    if |t.segs| == 1 {
      RawOne(t.segs[0]);
    } else {
      RawTwo(t.segs[0], t.segs[1]);
    }
  }

  lemma NothingForwarded()
    ensures Forwarded([]) == []
  {
  }

  lemma AlonePrepend(a: seq<Segment>, b: seq<Segment>, quiet: bool, quiet': bool)
    requires quiet' ==> quiet && Forwarded(a) == []
    requires forall seg :: seg in a ==> !seg.Bare?
    requires BareStandsAlone(b, quiet')
    ensures BareStandsAlone(a + b, quiet)
  {
    hide Forwarded;
    NothingForwarded();
    forall i | 0 <= i < |a + b| && (a + b)[i].Bare?
      ensures quiet && i == |a + b| - 1 && Forwarded((a + b)[..i]) == []
    {
      assert forall n :: 0 <= n < |a| ==> a[n] in a;
      assert (a + b)[..i] == a + b[..i - |a|];
      OutputsAppend(a, b[..i - |a|]);
    }
  }

  // Every swallowed byte of a call has its reason: a configured key, a whole
  // bracketed paste that names a local file, or a marker-free remainder that
  // does, with nothing forwarded earlier in the call.
  lemma SwallowOnlyWithCause(cfg: Config, ans: Answers, s: State, input: Bytes)
    requires cfg.Valid()
    ensures var segs := Processed(cfg, ans, s, input).segs;
            (forall seg :: seg in segs ==> Accounted(cfg, seg)) && BareStandsAlone(segs, true)
  {
    ScanAccounted(cfg, ans, s.inPaste, s.buf + input, true, 0);
  }

  // The i-th of these callbacks got answer number k + i.
  ghost predicate Answered(ans: Answers, k: nat, calls: seq<Call>) {
    forall i :: 0 <= i < |calls| ==> calls[i].handled == ans(k + i, calls[i].what)
  }

  lemma {:induction false} CallsAnswered(cfg: Config, ans: Answers, inPaste: bool, data: Bytes, quiet: bool, k: nat)
    requires cfg.Valid()
    ensures Answered(ans, k, CallsOf(Scan(cfg, ans, inPaste, data, quiet, k).segs))
    decreases |data|
  {
    hide TurnOf, CallsOf, Answered;
    if data == [] {
      NothingAnswered(ans, k);
    } else {
      match TurnOf(cfg, ans, inPaste, data, quiet, k)
      case End(_, _) =>
        EndAnswered(cfg, ans, inPaste, data, quiet, k);
      case Go(segs, inPaste', rest, quiet', k') =>
        GoAnswered(cfg, ans, inPaste, data, quiet, k);
        CallsAnswered(cfg, ans, inPaste', rest, quiet', k');
        AnsweredThen(ans, k, segs, Scan(cfg, ans, inPaste', rest, quiet', k').segs);
    }
  }

  lemma NothingAnswered(ans: Answers, k: nat)
    ensures Answered(ans, k, CallsOf([]))
  {
  }

  lemma AnsweredThen(ans: Answers, k: nat, a: seq<Segment>, b: seq<Segment>)
    requires Answered(ans, k, CallsOf(a)) && Answered(ans, k + |CallsOf(a)|, CallsOf(b))
    ensures Answered(ans, k, CallsOf(a + b))
  {
    OutputsAppend(a, b);
    AnsweredAppend(ans, k, CallsOf(a), CallsOf(b));
  }

  lemma AnsweredAppend(ans: Answers, k: nat, a: seq<Call>, b: seq<Call>)
    requires Answered(ans, k, a) && Answered(ans, k + |a|, b)
    ensures Answered(ans, k, a + b)
  {
    forall i | 0 <= i < |a + b| ensures (a + b)[i].handled == ans(k + i, (a + b)[i].what) {
      if i >= |a| {
        assert (a + b)[i] == b[i - |a|];
        assert k + |a| + (i - |a|) == k + i;
      }
    }
  }

  lemma EndAnswered(cfg: Config, ans: Answers, inPaste: bool, data: Bytes, quiet: bool, k: nat)
    requires cfg.Valid() && data != [] && TurnOf(cfg, ans, inPaste, data, quiet, k).End?
    ensures Answered(ans, k, CallsOf(TurnOf(cfg, ans, inPaste, data, quiet, k).segs))
  {
    if inPaste {
      OpenAsksNothing(data);
    } else {
      TailAnswered(cfg, ans, data, quiet, k);
    }
  }

  lemma OpenAsksNothing(data: Bytes)
    ensures CallsOf(ScanOpen(data).segs) == []
  {
    AbortedOutputs(data);
  }

  lemma TailAnswered(cfg: Config, ans: Answers, data: Bytes, quiet: bool, k: nat)
    ensures Answered(ans, k, CallsOf(ScanTail(cfg, ans, data, quiet, k).segs))
  {
    var drop := if cfg.hasDrop && quiet then DroppedBare(cfg.files, data) else None;
    hide DroppedBare, Hold, CallsOf, TailOf;
    TailOfCalls(data, drop, drop.Some? && ans(k, OnDrop(drop.value, data)), Hold(cfg, data));
  }

  lemma TailOfCalls(data: Bytes, drop: Option<Bytes>, taken: bool, keep: nat)
    requires (taken ==> drop.Some?) && keep <= |data|
    ensures CallsOf(TailOf(data, drop, taken, keep).segs) ==
      if drop.Some? then [Call(OnDrop(drop.value, data), taken)] else []
  {
    if taken {
      CallsOne(Bare(data, drop.value));
    } else {
      TailOutputs(data, drop, |data| - keep);
    }
  }

  lemma GoAnswered(cfg: Config, ans: Answers, inPaste: bool, data: Bytes, quiet: bool, k: nat)
    requires cfg.Valid() && data != [] && TurnOf(cfg, ans, inPaste, data, quiet, k).Go?
    ensures var t := TurnOf(cfg, ans, inPaste, data, quiet, k);
            t.calls == k + |CallsOf(t.segs)| && Answered(ans, k, CallsOf(t.segs))
  {
    if inPaste {
      CallsOne(PasteSegment(cfg, ans, data[..IndexOf(data, BP_END)], k));
    } else {
      var f := Earliest(cfg, data).value;
      MarkerAnswered(cfg, ans, data, f, k);
    }
  }

  lemma MarkerAnswered(cfg: Config, ans: Answers, data: Bytes, f: Found, k: nat)
    requires f.idx + f.len <= |data|
    ensures var calls := CallsOf(MarkerStep(cfg, ans, data, f, k));
            MarkerCalls(cfg, f) == |calls| && Answered(ans, k, calls)
  {
    var segs := MarkerStep(cfg, ans, data, f, k);
    if f.isPaste {
      CallsOne(segs[0]);
    } else {
      CallsTwo(segs[0], segs[1]);
    }
  }

  lemma CallsOne(seg: Segment)
    ensures CallsOf([seg]) == seg.Calls()
  {
    assert CallsOf([seg]) == seg.Calls() + [];
  }

  lemma CallsTwo(a: Segment, b: Segment)
    ensures CallsOf([a, b]) == a.Calls() + b.Calls()
  {
    assert [a, b][1..] == [b];
    CallsOne(b);
  }

  // ------------------------------------------------------------ state invariant

  ghost predicate Settled(cfg: Config, s: State) {
    if s.inPaste then |s.buf| <= MAX_SCAN && !HasNewline(s.buf) && !Contains(s.buf, BP_END)
    else s.buf == [] || (|s.buf| >= 2 && exists m :: m in cfg.Markers() && |s.buf| < |m| && s.buf == m[..|s.buf|])
  }

  // After any call the state is settled: outside a paste at most a proper
  // prefix of a marker is held, two bytes or more; inside one, a short single
  // line without an end marker.
  lemma {:induction false} ScanSettles(cfg: Config, ans: Answers, inPaste: bool, data: Bytes, quiet: bool, k: nat)
    requires cfg.Valid()
    ensures Settled(cfg, Scan(cfg, ans, inPaste, data, quiet, k).state)
    decreases |data|
  {
    if data == [] {
    } else {
      match TurnOf(cfg, ans, inPaste, data, quiet, k)
      case End(_, state) =>
        if !inPaste && state.buf != [] {
          var keep := Hold(cfg, data);
          var m :| m in cfg.Markers() && Partial(data, m, keep);
        }
      case Go(_, inPaste', rest, quiet', k') =>
        ScanSettles(cfg, ans, inPaste', rest, quiet', k');
    }
  }

  // With the keys the program can configure, only the paste marker is held.
  lemma SettledDefault(cfg: Config, s: State)
    requires ProgramKeys(cfg) && Settled(cfg, s) && !s.inPaste && s.buf != []
    ensures 2 <= |s.buf| <= 5 && s.buf == BP_START[..|s.buf|]
  {
    var m :| m in cfg.Markers() && |s.buf| < |m| && s.buf == m[..|s.buf|];
    assert m == BP_START || m == CTRL_V || m == ALT_V by {
      assert forall i :: 0 <= i < |cfg.triggers| ==> cfg.triggers[i] == CTRL_V || cfg.triggers[i] == ALT_V;
    }
  }

  predicate ProgramKeys(cfg: Config) {
    cfg.triggers == [] || cfg.triggers == [CTRL_V] || cfg.triggers == [ALT_V] || cfg.triggers == [CTRL_V, ALT_V]
  }

  // The last segment leaves what follows it open to be held: it is no paste
  // given up and no bare text taken as a drop.
  predicate KeepsTail(segs: seq<Segment>) {
    segs == [] || !(segs[|segs| - 1].Aborted? || segs[|segs| - 1].Bare?)
  }

  // A byte that ends a marker does not occur inside the part of one held.
  lemma TailBehindMarker(data: Bytes, rest: Bytes, n: nat)
    requires BehindMarker(data, rest) && 2 <= n && Partial(data, BP_START, n)
    ensures n <= |rest| && Partial(rest, BP_START, n)
  {
    var i := |data| - |rest| - 1;
    NoEndInPart(n);
    SuffixHas(data, n, i);
    assert n <= |rest| ==> rest[|rest| - n..] == data[|data| - n..];
  }

  // The rest of the data, right behind the last byte of a marker.
  predicate BehindMarker(data: Bytes, rest: Bytes) {
    && |rest| < |data| && data[|data| - |rest|..] == rest
    && data[|data| - |rest| - 1] in {0x7E, 0x16, 0x76}
  }

  lemma NoEndInPart(n: nat)
    requires n < |BP_START|
    ensures forall c :: c in BP_START[..n] ==> c !in {0x7E, 0x16, 0x76}
  {
  }

  lemma SuffixHas(data: Bytes, n: nat, i: nat)
    requires n <= |data| && i < |data|
    ensures |data| - n <= i ==> data[i] in data[|data| - n..]
  {
    if |data| - n <= i {
      assert data[|data| - n..][i - (|data| - n)] == data[i];
    }
  }

  lemma RestBehind(data: Bytes, m: Bytes, i: nat)
    requires At(data, m, i) && m != [] && m[|m| - 1] in {0x7E, 0x16, 0x76}
    ensures BehindMarker(data, data[i + |m|..])
  {
    assert data[i..i + |m|][|m| - 1] == data[i + |m| - 1];
  }

  // What a turn leaves to scan comes right behind the end of a marker.
  lemma GoEndsMarker(cfg: Config, ans: Answers, inPaste: bool, data: Bytes, quiet: bool, k: nat)
    requires cfg.Valid() && ProgramKeys(cfg) && data != [] && TurnOf(cfg, ans, inPaste, data, quiet, k).Go?
    ensures BehindMarker(data, TurnOf(cfg, ans, inPaste, data, quiet, k).rest)
  {
    hide PasteSegment, ScanTail, BehindMarker, MarkerStep, Earliest, At, ScanOpen;
    if inPaste {
      RestBehind(data, BP_END, IndexOf(data, BP_END));
    } else {
      var f := Earliest(cfg, data).value;
      EarliestIsFirst(cfg, data);
      if f.isPaste {
        RestBehind(data, BP_START, f.idx);
      } else {
        var t :| t in cfg.triggers && At(data, t, f.idx) && f.len == |t|;
        RestBehind(data, t, f.idx);
      }
    }
  }

  lemma {:induction false} ScanHoldsLongest(cfg: Config, ans: Answers, inPaste: bool, data: Bytes, quiet: bool, k: nat,
                                            n: nat)
    requires cfg.Valid() && ProgramKeys(cfg) && 2 <= n && Partial(data, BP_START, n)
    requires var r := Scan(cfg, ans, inPaste, data, quiet, k); !r.state.inPaste && KeepsTail(r.segs)
    ensures n <= |Scan(cfg, ans, inPaste, data, quiet, k).state.buf|
    decreases |data|
  {
    hide DroppedBare, DroppedLocal, Partial;
    if data != [] {
      match TurnOf(cfg, ans, inPaste, data, quiet, k)
      case End(segs, state) =>
        EndHoldsLongest(cfg, ans, inPaste, data, quiet, k, n);
      case Go(segs, inPaste', rest, quiet', k') =>
        GoEndsMarker(cfg, ans, inPaste, data, quiet, k);
        TailBehindMarker(data, rest, n);
        LastKept(segs, Scan(cfg, ans, inPaste', rest, quiet', k').segs);
        ScanHoldsLongest(cfg, ans, inPaste', rest, quiet', k', n);
    } else {
      NoPartOfNothing(n);
    }
  }

  lemma NoPartOfNothing(n: nat)
    ensures Partial([], BP_START, n) ==> n == 0
  {
  }

  lemma LastKept(a: seq<Segment>, b: seq<Segment>)
    requires KeepsTail(a + b)
    ensures KeepsTail(b)
  {
  }

  lemma EndHoldsLongest(cfg: Config, ans: Answers, inPaste: bool, data: Bytes, quiet: bool, k: nat, n: nat)
    requires cfg.Valid() && data != [] && TurnOf(cfg, ans, inPaste, data, quiet, k).End?
    requires 2 <= n && Partial(data, BP_START, n)
    requires var t := TurnOf(cfg, ans, inPaste, data, quiet, k); !t.state.inPaste && KeepsTail(t.segs)
    ensures n <= |TurnOf(cfg, ans, inPaste, data, quiet, k).state.buf|
  {
    hide DroppedBare, Earliest;
    if !inPaste {
      assert BP_START in cfg.Markers();
    }
  }

  // What a call holds outside a paste is the longest suffix, of two bytes or
  // more, of the bytes held before and those read that could still become the
  // paste marker, unless it ended in a paste given up or in bare text taken as
  // a drop.
  lemma HeldIsLongest(cfg: Config, ans: Answers, s: State, input: Bytes, n: nat)
    requires cfg.Valid() && ProgramKeys(cfg) && 2 <= n && Partial(s.buf + input, BP_START, n)
    requires var r := Processed(cfg, ans, s, input); !r.state.inPaste && KeepsTail(r.segs)
    ensures n <= |Processed(cfg, ans, s, input).state.buf|
  {
    ScanHoldsLongest(cfg, ans, s.inPaste, s.buf + input, true, 0, n);
  }

  // A keystroke read on its own from the idle state is never held back: it is
  // forwarded at once, unless it is a configured key the callback handled.
  lemma SingleByteNeverHeld(cfg: Config, ans: Answers, c: byte)
    requires cfg.Valid()
    ensures var r := Processed(cfg, ans, IDLE, [c]);
            r.state == IDLE && (Forwarded(r.segs) == [c] ||
              (Forwarded(r.segs) == [] && [c] in cfg.triggers && cfg.hasKey))
  {
    hide RawOf, Forwarded, CallsOf, Earliest, DroppedBare, HoldUpTo;
    var data := IDLE.buf + [c];
    assert data == [c];
    BareNeedsPath(cfg.files, data);
    EarliestIsFirst(cfg, data);
    match Earliest(cfg, data)
    case None =>
      var s := ScanTail(cfg, ans, data, true, 0);
      assert Hold(cfg, data) == 0;
      assert s.segs == [Plain(data[..1])] && data[..1] == data;
      RawOne(Plain(data));
    case Some(f) =>
      assert f.idx == 0 && f.len == 1 && !f.isPaste;
      var t :| t in cfg.triggers && At(data, t, f.idx) && f.len == |t|;
      assert data[0..1] == data == t;
      OneKey(cfg, ans, data, f);
  }

  lemma OneKey(cfg: Config, ans: Answers, data: Bytes, f: Found)
    requires cfg.Valid() && |data| == 1 && Earliest(cfg, data) == Some(f) && f == Found(0, false, 1)
    ensures var key := Trigger(data, cfg.hasKey, cfg.hasKey && ans(0, OnPasteKey));
            Scan(cfg, ans, false, data, true, 0) == Scanned([Plain([]), key], IDLE)
            && Forwarded([Plain([]), key]) == key.Out()
  {
    assert data[..0] == [] && data[0..1] == data && data[1..] == [];
    var key := Trigger(data, cfg.hasKey, cfg.hasKey && ans(0, OnPasteKey));
    RawTwo(Plain([]), key);
    assert [Plain([]), key] + [] == [Plain([]), key];
  }

  // ------------------------------------------------------------ many reads

  // All reads in turn; the i-th has its own callback answers.
  function Reads(cfg: Config, ansAt: nat -> Answers, chunks: seq<Bytes>): Scanned
    requires cfg.Valid()
  {
    if chunks == [] then Scanned([], IDLE)
    else
      var n := |chunks| - 1;
      var before := Reads(cfg, ansAt, chunks[..n]);
      Then(before.segs, Processed(cfg, ansAt(n), before.state, chunks[n]))
  }

  lemma {:induction false} ReadsConserve(cfg: Config, ansAt: nat -> Answers, chunks: seq<Bytes>)
    requires cfg.Valid()
    ensures var r := Reads(cfg, ansAt, chunks);
            && RawOf(r.segs) + r.state.Held() == Concat(chunks) && Settled(cfg, r.state)
            && forall seg :: seg in r.segs ==> Accounted(cfg, seg)
    decreases |chunks|
  {
    if chunks != [] {
      var n := |chunks| - 1;
      ReadsConserve(cfg, ansAt, chunks[..n]);
      var before := Reads(cfg, ansAt, chunks[..n]);
      var last := Processed(cfg, ansAt(n), before.state, chunks[n]);
      CallConserves(cfg, ansAt(n), before.state, chunks[n]);
      SwallowOnlyWithCause(cfg, ansAt(n), before.state, chunks[n]);
      ScanSettles(cfg, ansAt(n), before.state.inPaste, before.state.buf + chunks[n], true, 0);
      OutputsAppend(before.segs, last.segs);
      Assoc(RawOf(before.segs), RawOf(last.segs), last.state.Held());
      Assoc(RawOf(before.segs), before.state.Held(), chunks[n]);
    }
  }

  ghost predicate NoneHandled(calls: seq<Call>) {
    forall c :: c in calls ==> !c.handled
  }

  // Byte-exact pass-through, exactly: over any reads and whatever the callbacks
  // answer, what was forwarded plus what is held is the input if and only if no
  // callback claimed to have handled what it was asked about.
  lemma PassThroughIff(cfg: Config, ansAt: nat -> Answers, chunks: seq<Bytes>)
    requires cfg.Valid()
    ensures var r := Reads(cfg, ansAt, chunks);
            Forwarded(r.segs) + r.state.Held() == Concat(chunks) <==> NoneHandled(CallsOf(r.segs))
  {
    ReadsConserve(cfg, ansAt, chunks);
    var r := Reads(cfg, ansAt, chunks);
    ForwardsAllIff(cfg, r.segs, r.state.Held(), Concat(chunks));
  }

  // In particular when they all decline.
  lemma PassThrough(cfg: Config, ansAt: nat -> Answers, chunks: seq<Bytes>)
    requires cfg.Valid() && forall i, k, cb :: !ansAt(i)(k, cb)
    ensures var r := Reads(cfg, ansAt, chunks); Forwarded(r.segs) + r.state.Held() == Concat(chunks)
  {
    PassThroughIff(cfg, ansAt, chunks);
    DecliningHandlesNone(cfg, ansAt, chunks);
  }

  lemma {:induction false} DecliningHandlesNone(cfg: Config, ansAt: nat -> Answers, chunks: seq<Bytes>)
    requires cfg.Valid() && forall i, k, cb :: !ansAt(i)(k, cb)
    ensures NoneHandled(CallsOf(Reads(cfg, ansAt, chunks).segs))
    decreases |chunks|
  {
    hide Scan;
    if chunks != [] {
      var n := |chunks| - 1;
      DecliningHandlesNone(cfg, ansAt, chunks[..n]);
      var before := Reads(cfg, ansAt, chunks[..n]);
      var last := Processed(cfg, ansAt(n), before.state, chunks[n]);
      CallsAnswered(cfg, ansAt(n), before.state.inPaste, before.state.buf + chunks[n], true, 0);
      OutputsAppend(before.segs, last.segs);
    }
  }

  lemma ForwardsAllIff(cfg: Config, segs: seq<Segment>, held: Bytes, all: Bytes)
    requires cfg.Valid() && (forall seg :: seg in segs ==> Accounted(cfg, seg)) && RawOf(segs) + held == all
    ensures Forwarded(segs) + held == all <==> NoneHandled(CallsOf(segs))
  {
    HandledIsMissing(cfg, segs);
    SameTail(Forwarded(segs), RawOf(segs), held);
  }

  lemma SameTail(a: Bytes, b: Bytes, t: Bytes)
    ensures a + t == b + t <==> a == b
  {
    if a + t == b + t {
      assert |a| == |b|;
      assert a == (a + t)[..|a|] == (b + t)[..|b|] == b;
    }
  }

  // A handled callback leaves a gap in what is forwarded, and nothing else does.
  lemma {:induction false} HandledIsMissing(cfg: Config, segs: seq<Segment>)
    requires cfg.Valid() && forall seg :: seg in segs ==> Accounted(cfg, seg)
    ensures |Forwarded(segs)| <= |RawOf(segs)|
    ensures Forwarded(segs) == RawOf(segs) <==> NoneHandled(CallsOf(segs))
    decreases |segs|
  {
    if segs != [] {
      var seg, rest := segs[0], segs[1..];
      assert seg in segs && forall x :: x in rest ==> x in segs;
      HandledIsMissing(cfg, rest);
      SegmentMissing(cfg, seg);
      Parts(seg.Out(), Forwarded(rest), seg.Raw(), RawOf(rest));
      BothNone(seg.Calls(), CallsOf(rest));
    }
  }

  lemma SegmentMissing(cfg: Config, seg: Segment)
    requires cfg.Valid() && Accounted(cfg, seg)
    ensures |seg.Out()| <= |seg.Raw()|
    ensures seg.Out() == seg.Raw() <==> NoneHandled(seg.Calls())
  {
    if seg.Bare? {
      BareNeedsPath(cfg.files, seg.bytes);
      assert seg.Calls()[0].handled;
    } else if seg.Swallowed() {
      assert seg.Calls()[0].handled && seg.Raw() != [];
    }
  }

  lemma Parts(a: Bytes, b: Bytes, c: Bytes, d: Bytes)
    requires |a| <= |c| && |b| <= |d|
    ensures a + b == c + d <==> a == c && b == d
  {
    if a + b == c + d {
      assert |a| == |c|;
      assert a == (a + b)[..|a|] == (c + d)[..|c|] == c;
      assert b == (a + b)[|a|..] == (c + d)[|c|..] == d;
    }
  }

  lemma BothNone(a: seq<Call>, b: seq<Call>)
    ensures NoneHandled(a + b) <==> NoneHandled(a) && NoneHandled(b)
  {
    assert forall c :: c in a + b <==> c in a || c in b;
  }
}
