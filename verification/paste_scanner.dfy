// The stdin scanner that bridges dropped files and the clipboard-image key.
// What one call does is told as a list of segments the input falls into; the
// method is proved against it, and the laws of the scanner are laws of the
// segments.
module PasteScanner {
  import opened Options
  import opened ByteStrings
  import opened ClientPath

  const BP_START: Bytes := [0x1B, 0x5B, 0x32, 0x30, 0x30, 0x7E]
  const BP_END: Bytes := [0x1B, 0x5B, 0x32, 0x30, 0x31, 0x7E]
  const MAX_SCAN := 8192
  const CTRL_V: Bytes := [0x16]
  const ALT_V: Bytes := [0x1B, 0x76]

  // The two callbacks; a configuration says which are set.
  datatype Callback = OnDrop(path: Bytes, bracketed: Bytes) | OnPasteKey

  datatype Config = Config(triggers: seq<Bytes>, files: Files, hasDrop: bool, hasKey: bool) {
    // A trigger is a key, so it has at least one byte.
    predicate Valid() {
      forall t :: t in triggers ==> t != []
    }

    function Markers(): seq<Bytes> {
      [BP_START] + triggers
    }
  }

  // What the k-th callback made during one call answers: any function at all.
  type Answers = (nat, Callback) -> bool

  datatype Call = Call(what: Callback, handled: bool)

  datatype Segment =
    | Plain(bytes: Bytes)
    | Trigger(bytes: Bytes, asked: bool, handled: bool)
    | Paste(content: Bytes, offer: Option<Bytes>, taken: bool) // offer: the path onDrop was asked about
    | Bare(bytes: Bytes, path: Bytes)                         // an unwrapped drop, taken
    | Declined(bytes: Bytes, path: Bytes)                     // one offered but not taken: no bytes of its own
    | Aborted(bytes: Bytes)                                   // a paste no longer watched for its end
  {
    // The input bytes the segment accounts for.
    function Raw(): Bytes {
      match this
      case Plain(b) => b
      case Trigger(b, _, _) => b
      case Paste(c, _, _) => BP_START + c + BP_END
      case Bare(b, _) => b
      case Declined(_, _) => []
      case Aborted(b) => BP_START + b
    }

    predicate Swallowed() {
      (Trigger? && handled) || (Paste? && taken) || Bare?
    }

    function Out(): Bytes {
      if Swallowed() then [] else Raw()
    }

    function Calls(): seq<Call> {
      match this
      case Trigger(_, asked, handled) => if asked then [Call(OnPasteKey, handled)] else []
      case Paste(c, Some(p), taken) => [Call(OnDrop(p, BP_START + c + BP_END), taken)]
      case Bare(b, p) => [Call(OnDrop(p, b), true)]
      case Declined(b, p) => [Call(OnDrop(p, b), false)]
      case _ => []
    }
  }

  function RawOf(segs: seq<Segment>): Bytes {
    if segs == [] then [] else segs[0].Raw() + RawOf(segs[1..])
  }

  function Forwarded(segs: seq<Segment>): Bytes {
    if segs == [] then [] else segs[0].Out() + Forwarded(segs[1..])
  }

  function CallsOf(segs: seq<Segment>): seq<Call> {
    if segs == [] then [] else segs[0].Calls() + CallsOf(segs[1..])
  }

  datatype State = State(inPaste: bool, buf: Bytes) {
    // The bytes taken in but neither forwarded nor swallowed yet.
    function Held(): Bytes {
      (if inPaste then BP_START else []) + buf
    }
  }

  const IDLE := State(false, [])

  // ----------------------------------------------------- markers in a chunk

  datatype Found = Found(idx: nat, isPaste: bool, len: nat)

  // earliest, after the paste marker and the first n triggers were looked for.
  function EarliestOf(cfg: Config, data: Bytes, n: nat): (r: Option<Found>)
    requires n <= |cfg.triggers|
    ensures r.Some? ==> r.value.idx + r.value.len <= |data| && (cfg.Valid() ==> r.value.len > 0)
  {
    if n == 0 then
      var i := IndexOf(data, BP_START);
      if i >= 0 then Some(Found(i, true, |BP_START|)) else None
    else
      var best := EarliestOf(cfg, data, n - 1);
      assert cfg.triggers[n - 1] in cfg.triggers;
      var i := IndexOf(data, cfg.triggers[n - 1]);
      if i >= 0 && (best == None || i < best.value.idx) then Some(Found(i, false, |cfg.triggers[n - 1]|)) else best
  }

  function Earliest(cfg: Config, data: Bytes): (r: Option<Found>)
    ensures r.Some? ==> r.value.idx + r.value.len <= |data| && (cfg.Valid() ==> r.value.len > 0)
  {
    EarliestOf(cfg, data, |cfg.triggers|)
  }

  // It finds the first marker of all: none occurs before it, the paste marker
  // wins at its own position, and the length is that of a marker there.
  lemma EarliestIsFirst(cfg: Config, data: Bytes)
    ensures Earliest(cfg, data) == None <==> forall m, i :: m in cfg.Markers() ==> !At(data, m, i)
    ensures Earliest(cfg, data).Some? ==>
      var f := Earliest(cfg, data).value;
      && (forall m, i :: m in cfg.Markers() && At(data, m, i) ==> f.idx <= i)
      && (f.isPaste <==> At(data, BP_START, f.idx))
      && (if f.isPaste then f.len == |BP_START|
          else exists t :: t in cfg.triggers && At(data, t, f.idx) && f.len == |t|)
  {
    EarliestOfIsFirst(cfg, data, |cfg.triggers|);
    assert cfg.triggers[..|cfg.triggers|] == cfg.triggers;
  }

  lemma {:induction false} EarliestOfIsFirst(cfg: Config, data: Bytes, n: nat)
    requires n <= |cfg.triggers|
    ensures EarliestOf(cfg, data, n) == None <==> forall m, i :: m in [BP_START] + cfg.triggers[..n] ==> !At(data, m, i)
    ensures EarliestOf(cfg, data, n).Some? ==>
      var f := EarliestOf(cfg, data, n).value;
      && (forall m, i :: m in [BP_START] + cfg.triggers[..n] && At(data, m, i) ==> f.idx <= i)
      && (f.isPaste <==> At(data, BP_START, f.idx))
      && (if f.isPaste then f.len == |BP_START|
          else exists t :: t in cfg.triggers[..n] && At(data, t, f.idx) && f.len == |t|)
    decreases n
  {
    if n > 0 {
      EarliestOfIsFirst(cfg, data, n - 1);
      assert cfg.triggers[..n] == cfg.triggers[..n - 1] + [cfg.triggers[n - 1]];
    }
  }

  // n trailing bytes of data are a proper prefix of m.
  predicate Partial(data: Bytes, m: Bytes, n: nat) {
    n < |m| && n <= |data| && data[|data| - n..] == m[..n]
  }

  // The most trailing bytes, at least two and at most n, that begin a marker.
  function HoldUpTo(markers: seq<Bytes>, data: Bytes, n: nat): (r: nat)
    ensures r <= n && (r == 0 || 2 <= r)
    ensures r > 0 ==> exists m :: m in markers && Partial(data, m, r)
    ensures forall m, k :: m in markers && 2 <= k <= n && Partial(data, m, k) ==> k <= r
  {
    if n < 2 then 0
    else if exists m :: m in markers && Partial(data, m, n) then n
    else HoldUpTo(markers, data, n - 1)
  }

  function Hold(cfg: Config, data: Bytes): (r: nat)
    ensures r <= |data|
  {
    HoldUpTo(cfg.Markers(), data, |data|)
  }

  // -------------------------------------------------------------- one call

  datatype Scanned = Scanned(segs: seq<Segment>, state: State)

  // The segments a marker at f contributes, and those of a whole paste; k
  // callbacks were made before.
  function MarkerStep(cfg: Config, ans: Answers, data: Bytes, f: Found, k: nat): seq<Segment>
    requires f.idx + f.len <= |data|
  {
    if f.isPaste then [Plain(data[..f.idx])]
    else [Plain(data[..f.idx]), Trigger(data[f.idx..f.idx + f.len], cfg.hasKey, cfg.hasKey && ans(k, OnPasteKey))]
  }

  // Whether nothing of that is forwarded, and how many callbacks it makes.
  predicate MarkerQuiet(cfg: Config, ans: Answers, f: Found, k: nat) {
    f.idx == 0 && (f.isPaste || (cfg.hasKey && ans(k, OnPasteKey)))
  }

  function MarkerCalls(cfg: Config, f: Found): nat {
    if !f.isPaste && cfg.hasKey then 1 else 0
  }

  function PasteSegment(cfg: Config, ans: Answers, content: Bytes, k: nat): (p: Segment)
    ensures p.Paste?
  {
    var path := if cfg.hasDrop then DroppedLocal(cfg.files, content) else None;
    Paste(content, path, path.Some? && ans(k, OnDrop(path.value, BP_START + content + BP_END)))
  }

  // A paste whose end has not come: too long or of several lines, and it is
  // text; else it is held.
  function ScanOpen(data: Bytes): Scanned {
    if |data| > MAX_SCAN || HasNewline(data) then Scanned([Aborted(data)], IDLE) else Scanned([], State(true, data))
  }

  // A remainder without any marker.
  function ScanTail(cfg: Config, ans: Answers, data: Bytes, quiet: bool, k: nat): Scanned {
    var drop := if cfg.hasDrop && quiet then DroppedBare(cfg.files, data) else None;
    TailOf(data, drop, drop.Some? && ans(k, OnDrop(drop.value, data)), Hold(cfg, data))
  }

  // Its outcome: `drop` is the file the bytes were offered as, if any, and
  // `keep` how many of them may begin a marker.
  function TailOf(data: Bytes, drop: Option<Bytes>, taken: bool, keep: nat): Scanned
    requires (taken ==> drop.Some?) && keep <= |data|
  {
    if taken then Scanned([Bare(data, drop.value)], IDLE)
    else
      var cut := |data| - keep;
      Scanned(TailSegments(data, drop, cut), State(false, data[cut..]))
  }

  function TailSegments(data: Bytes, drop: Option<Bytes>, cut: nat): seq<Segment>
    requires cut <= |data|
  {
    (if drop.Some? then [Declined(data, drop.value)] else []) + [Plain(data[..cut])]
  }

  function Then(segs: seq<Segment>, s: Scanned): Scanned {
    Scanned(segs + s.segs, s.state)
  }

  // One turn of the loop: the segments it adds and, unless the call ends
  // there, what is left to scan. `quiet` holds while nothing has been forwarded.
  datatype Turned =
    | End(segs: seq<Segment>, state: State)
    | Go(segs: seq<Segment>, inPaste: bool, rest: Bytes, quiet: bool, calls: nat)

  function TurnOf(cfg: Config, ans: Answers, inPaste: bool, data: Bytes, quiet: bool, k: nat): (t: Turned)
    requires cfg.Valid() && data != []
    ensures t.Go? ==> |t.rest| < |data|
  {
    if !inPaste then
      match Earliest(cfg, data)
      case None => var s := ScanTail(cfg, ans, data, quiet, k); End(s.segs, s.state)
      case Some(f) =>
        Go(MarkerStep(cfg, ans, data, f, k), f.isPaste, data[f.idx + f.len..],
           quiet && MarkerQuiet(cfg, ans, f, k), k + MarkerCalls(cfg, f))
    else
      var j := IndexOf(data, BP_END);
      if j < 0 then var s := ScanOpen(data); End(s.segs, s.state)
      else
        var p := PasteSegment(cfg, ans, data[..j], k);
        Go([p], false, data[j + |BP_END|..], quiet && p.taken, k + if p.offer.Some? then 1 else 0)
  }

  function Scan(cfg: Config, ans: Answers, inPaste: bool, data: Bytes, quiet: bool, k: nat): Scanned
    requires cfg.Valid()
    decreases |data|
  {
    if data == [] then Scanned([], State(inPaste, []))
    else match TurnOf(cfg, ans, inPaste, data, quiet, k)
      case End(segs, state) => Scanned(segs, state)
      case Go(segs, inPaste', rest, quiet', k') => Then(segs, Scan(cfg, ans, inPaste', rest, quiet', k'))
  }

  function Processed(cfg: Config, ans: Answers, s: State, input: Bytes): Scanned
    requires cfg.Valid()
  {
    Scan(cfg, ans, s.inPaste, s.buf + input, true, 0)
  }

  class Scanner {
    var inPaste: bool
    var buf: Bytes
    const triggers: seq<Bytes>

    constructor (triggers: seq<Bytes>)
      ensures this.triggers == triggers && State(inPaste, buf) == IDLE
    {
      this.triggers := triggers;
      inPaste, buf := false, [];
    }

    method Process(cfg: Config, ans: Answers, input: Bytes) returns (out: Bytes, calls: seq<Call>)
      requires cfg.Valid() && cfg.triggers == triggers
      modifies this
      ensures var r := Processed(cfg, ans, old(State(inPaste, buf)), input);
              State(inPaste, buf) == r.state && out == Forwarded(r.segs) && calls == CallsOf(r.segs)
    {
      var data := buf + input;
      ghost var whole := Processed(cfg, ans, State(inPaste, buf), input);
      ghost var segs: seq<Segment> := [];
      buf, out, calls := [], [], [];
      while |data| > 0
        invariant buf == []
        invariant whole == Then(segs, Scan(cfg, ans, inPaste, data, |out| == 0, |calls|))
        invariant out == Forwarded(segs) && calls == CallsOf(segs)
        decreases |data|
      {
        ghost var turned := TurnOf(cfg, ans, inPaste, data, |out| == 0, |calls|);
        var more: bool;
        out, calls, data, more := Turn(cfg, ans, data, out, calls);
        OutputsAppend(segs, turned.segs);
        if !more {
          return;
        }
        ThenThen(segs, turned.segs, Scan(cfg, ans, inPaste, data, |out| == 0, |calls|));
        segs := segs + turned.segs;
      }
      assert segs + [] == segs;
    }

    // One turn of the loop; `more` unless it returns from process.
    method Turn(cfg: Config, ans: Answers, data: Bytes, out: Bytes, calls: seq<Call>)
        returns (out': Bytes, calls': seq<Call>, rest: Bytes, more: bool)
      requires cfg.Valid() && cfg.triggers == triggers && buf == [] && data != []
      modifies this
      ensures var t := TurnOf(cfg, ans, old(inPaste), data, |out| == 0, |calls|);
              && out' == out + Forwarded(t.segs) && calls' == calls + CallsOf(t.segs)
              && if more then buf == [] && t == Go(t.segs, inPaste, rest, |out'| == 0, |calls'|)
                 else t == End(t.segs, State(inPaste, buf))
    {
      if inPaste {
        out', calls', rest, more := TurnInPaste(cfg, ans, data, out, calls);
        return;
      }
      var found := EarliestMarker(cfg, data);
      match found {
        case None =>
          out', calls' := FinishIdle(cfg, ans, data, out, calls);
          rest, more := [], false;
        case Some(f) =>
          out', calls', inPaste := TakeMarker(cfg, ans, data, f, out, calls);
          rest, more := data[f.idx + f.len..], true;
      }
    }

    method TurnInPaste(cfg: Config, ans: Answers, data: Bytes, out: Bytes, calls: seq<Call>)
        returns (out': Bytes, calls': seq<Call>, rest: Bytes, more: bool)
      requires cfg.Valid() && inPaste && buf == [] && data != []
      modifies this
      ensures var t := TurnOf(cfg, ans, true, data, |out| == 0, |calls|);
              && out' == out + Forwarded(t.segs) && calls' == calls + CallsOf(t.segs)
              && if more then buf == [] && t == Go(t.segs, inPaste, rest, |out'| == 0, |calls'|)
                 else t == End(t.segs, State(inPaste, buf))
    {
      var j := IndexOf(data, BP_END);
      if j < 0 {
        out' := FinishPaste(data, out);
        calls', rest, more := calls, [], false;
        assert calls' == calls + [];
        return;
      }
      out', calls' := ClosePaste(cfg, ans, data[..j], out, calls);
      rest, more := data[j + |BP_END|..], true;
      inPaste := false;
    }

    // No marker left: judge the remainder as an unwrapped drop if nothing was
    // forwarded yet, else forward all but a possible start of a marker.
    method FinishIdle(cfg: Config, ans: Answers, data: Bytes, out: Bytes, calls: seq<Call>)
        returns (out': Bytes, calls': seq<Call>)
      requires cfg.Valid() && cfg.triggers == triggers && buf == []
      modifies this`buf
      ensures var r := ScanTail(cfg, ans, data, |out| == 0, |calls|);
              buf == r.state.buf && out' == out + Forwarded(r.segs) && calls' == calls + CallsOf(r.segs)
    {
      hide DroppedBare, Hold;
      out', calls' := out, calls;
      var drop := if cfg.hasDrop && |out| == 0 then DroppedBare(cfg.files, data) else None;
      if drop.Some? {
        var taken := ans(|calls|, OnDrop(drop.value, data));
        calls' := calls' + [Call(OnDrop(drop.value, data), taken)];
        if taken {
          BareOutputs(data, drop.value);
          return;
        }
      }
      var keep := Holdback(cfg, data);
      TailOutputs(data, drop, |data| - keep);
      out' := out' + data[..|data| - keep];
      buf := data[|data| - keep..];
    }

    // A marker inside data: forward what precedes it, then open a paste or
    // offer the key.
    method TakeMarker(cfg: Config, ans: Answers, data: Bytes, f: Found, out: Bytes, calls: seq<Call>)
        returns (out': Bytes, calls': seq<Call>, pasteOpen: bool)
      requires f.idx + f.len <= |data|
      ensures pasteOpen == f.isPaste
      requires f.len > 0
      ensures |calls'| == |calls| + MarkerCalls(cfg, f)
      ensures |out'| == 0 <==> |out| == 0 && MarkerQuiet(cfg, ans, f, |calls|)
      ensures var step := MarkerStep(cfg, ans, data, f, |calls|);
              out' == out + Forwarded(step) && calls' == calls + CallsOf(step)
    {
      var before, key := data[..f.idx], data[f.idx..f.idx + f.len];
      out', calls', pasteOpen := out + before, calls, f.isPaste;
      if f.isPaste {
        PlainOutputs(before);
        return;
      }
      var handled, asked := OfferKey(cfg, ans, |calls|);
      calls' := calls + asked;
      if !handled {
        out' := out' + key;
      }
      KeyOutputs(before, key, cfg.hasKey, handled);
      assert out' == out + (before + if handled then [] else key);
    }

    method OfferKey(cfg: Config, ans: Answers, k: nat) returns (handled: bool, asked: seq<Call>)
      ensures handled == (cfg.hasKey && ans(k, OnPasteKey))
      ensures asked == if cfg.hasKey then [Call(OnPasteKey, handled)] else []
    {
      handled, asked := false, [];
      if cfg.hasKey {
        handled := ans(k, OnPasteKey);
        asked := [Call(OnPasteKey, handled)];
      }
    }

    // Inside a paste whose end has not come: keep watching, or give up.
    method FinishPaste(data: Bytes, out: Bytes) returns (out': Bytes)
      requires inPaste && buf == []
      modifies this
      ensures var r := ScanOpen(data);
              State(inPaste, buf) == r.state && out' == out + Forwarded(r.segs) && CallsOf(r.segs) == []
    {
      out' := out;
      if |data| > MAX_SCAN || HasNewline(data) {
        AbortedOutputs(data);
        out' := out' + BP_START;
        out' := out' + data;
        assert out' == out + (BP_START + data);
        inPaste := false;
        return;
      }
      buf := data;
    }

    // A whole paste: offer it if it names a local file, else put it together again.
    method ClosePaste(cfg: Config, ans: Answers, content: Bytes, out: Bytes, calls: seq<Call>)
        returns (out': Bytes, calls': seq<Call>)
      ensures var p := PasteSegment(cfg, ans, content, |calls|);
              && out' == out + Forwarded([p]) && calls' == calls + CallsOf([p])
              && |calls'| == |calls| + (if p.offer.Some? then 1 else 0)
              && (|out'| == 0 <==> |out| == 0 && p.taken)
    {
      out', calls' := out, calls;
      var path := if cfg.hasDrop then DroppedLocal(cfg.files, content) else None;
      var bracketed := BP_START + content + BP_END;
      var taken := false;
      if path.Some? {
        taken := ans(|calls|, OnDrop(path.value, bracketed));
        calls' := calls' + [Call(OnDrop(path.value, bracketed), taken)];
      }
      if !taken {
        out' := out' + bracketed;
      }
      PasteOutputs(content, path, taken);
    }

    // The method form of earliest.
    method EarliestMarker(cfg: Config, data: Bytes) returns (r: Option<Found>)
      ensures r == Earliest(cfg, data)
    {
      r := None;
      var i := IndexOf(data, BP_START);
      if i >= 0 {
        r := Some(Found(i, true, |BP_START|));
      }
      for n := 0 to |cfg.triggers|
        invariant r == EarliestOf(cfg, data, n)
      {
        i := IndexOf(data, cfg.triggers[n]);
        if i >= 0 && (r == None || i < r.value.idx) {
          r := Some(Found(i, false, |cfg.triggers[n]|));
        }
      }
    }

    // The method form of holdback: per marker the longest partial match.
    method Holdback(cfg: Config, data: Bytes) returns (keep: nat)
      ensures keep == Hold(cfg, data)
    {
      var markers := cfg.Markers();
      keep := 0;
      for i := 0 to |markers|
        invariant keep == 0 || (2 <= keep <= |data| && exists m :: m in markers && Partial(data, m, keep))
        invariant forall m, k :: m in markers[..i] && 2 <= k && Partial(data, m, k) ==> k <= keep
      {
        var n := LongestPartial(data, markers[i]);
        if n > keep {
          keep := n;
        }
      }
    }

    method LongestPartial(data: Bytes, m: Bytes) returns (n: nat)
      ensures n == 0 || (2 <= n && Partial(data, m, n))
      ensures forall k: nat :: 2 <= k && Partial(data, m, k) ==> k <= n
    {
      var i := if |m| - 1 > |data| then |data| else |m| - 1;
      while i >= 2
        invariant i <= |data| && i <= |m| - 1
        invariant forall k: nat :: i < k ==> !Partial(data, m, k)
      {
        if data[|data| - i..] == m[..i] {
          return i;
        }
        i := i - 1;
      }
      n := 0;
    }
  }

  lemma {:induction false} OutputsAppend(a: seq<Segment>, b: seq<Segment>)
    ensures Forwarded(a + b) == Forwarded(a) + Forwarded(b)
    ensures CallsOf(a + b) == CallsOf(a) + CallsOf(b)
    ensures RawOf(a + b) == RawOf(a) + RawOf(b)
    decreases |a|
  {
    hide Segment.Raw, Segment.Out, Segment.Calls;
    if a == [] {
      assert a + b == b;
    } else {
      assert (a + b)[1..] == a[1..] + b;
      OutputsAppend(a[1..], b);
    }
  }

  lemma ThenThen(a: seq<Segment>, b: seq<Segment>, s: Scanned)
    ensures Then(a, Then(b, s)) == Then(a + b, s)
  {
    assert a + (b + s.segs) == a + b + s.segs;
  }

  lemma PlainOutputs(before: Bytes)
    ensures Forwarded([Plain(before)]) == RawOf([Plain(before)]) == before && CallsOf([Plain(before)]) == []
  {
    assert Forwarded([Plain(before)]) == before + [] && RawOf([Plain(before)]) == before + [];
  }

  lemma KeyOutputs(before: Bytes, key: Bytes, asked: bool, handled: bool)
    ensures var step := [Plain(before), Trigger(key, asked, handled)];
            && Forwarded(step) == before + (if handled then [] else key)
            && CallsOf(step) == if asked then [Call(OnPasteKey, handled)] else []
  {
    var t := Trigger(key, asked, handled);
    assert [Plain(before), t][1..] == [t];
    assert Forwarded([t]) == t.Out() + [];
    assert CallsOf([t]) == t.Calls() + [];
  }

  lemma PasteOutputs(content: Bytes, path: Option<Bytes>, taken: bool)
    requires taken ==> path.Some?
    ensures var step := [Paste(content, path, taken)];
            && Forwarded(step) == (if taken then [] else BP_START + content + BP_END)
            && CallsOf(step) == (if path.Some? then [Call(OnDrop(path.value, BP_START + content + BP_END), taken)]
                     else [])
  {
    var p := Paste(content, path, taken);
    assert Forwarded([p]) == p.Out() + [];
    assert CallsOf([p]) == p.Calls() + [];
  }

  lemma AbortedOutputs(data: Bytes)
    ensures Forwarded([Aborted(data)]) == RawOf([Aborted(data)]) == BP_START + data && CallsOf([Aborted(data)]) == []
  {
    var a := Aborted(data);
    assert [a][1..] == [];
    assert Forwarded([a]) == a.Out() + [] && RawOf([a]) == a.Raw() + [];
    assert CallsOf([a]) == a.Calls() + CallsOf([]) == [] + [];
  }

  lemma BareOutputs(data: Bytes, path: Bytes)
    ensures Forwarded([Bare(data, path)]) == [] && RawOf([Bare(data, path)]) == data
    ensures CallsOf([Bare(data, path)]) == [Call(OnDrop(path, data), true)]
  {
    assert RawOf([Bare(data, path)]) == data + [];
    assert CallsOf([Bare(data, path)]) == Bare(data, path).Calls() + [];
  }

  lemma TailOutputs(data: Bytes, drop: Option<Bytes>, cut: nat)
    requires cut <= |data|
    ensures var last := TailSegments(data, drop, cut);
            && Forwarded(last) == RawOf(last) == data[..cut]
            && CallsOf(last) == if drop.Some? then [Call(OnDrop(drop.value, data), false)] else []
  {
    var p := [Plain(data[..cut])];
    PlainOutputs(data[..cut]);
    if drop.Some? {
      var d := Declined(data, drop.value);
      assert ([d] + p)[1..] == p;
    }
  }
}
