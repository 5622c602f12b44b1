// Several files dropped in one read: which of them the confirm asks about, and
// what becomes of the others. Every read is taken apart into pastes, keys and
// what is left behind them.
module SessionDrops {
  import opened Options
  import opened ByteStrings
  import opened ClientPath
  import opened PasteScanner
  import opened PasteLaws
  import opened PasteSplits
  import opened Session
  import opened SessionLaws
  import opened SessionBytes

  // A paste or a configured key, and the text in front of it.
  datatype Item = Pasted(text: Bytes, content: Bytes) | Pressed(text: Bytes, key: Bytes) {
    function Bytes(): Bytes {
      text + match this case Pasted(_, c) => Whole(c) case Pressed(_, k) => k
    }
  }

  // What is behind the last of them: text, or a paste whose end has not come.
  datatype Rest = Typed(text: Bytes) | Open(text: Bytes, part: Bytes) {
    function Bytes(): Bytes {
      match this case Typed(t) => t case Open(t, p) => t + (BP_START + p)
    }
  }

  function Stream(items: seq<Item>, rest: Rest): Bytes {
    if items == [] then rest.Bytes() else items[0].Bytes() + Stream(items[1..], rest)
  }

  // The bytes are read in this way: in front of each item, and in the rest, no
  // marker occurs, and no paste holds an end marker.
  predicate ReadAs(cfg: Config, items: seq<Item>, rest: Rest) {
    if items == [] then
      match rest
      case Typed(t) => Earliest(cfg, t) == None
      case Open(t, p) => Earliest(cfg, rest.Bytes()) == Some(Found(|t|, true, |BP_START|)) && !Contains(p, BP_END)
    else
      && ReadAs(cfg, items[1..], rest)
      && match items[0]
         case Pasted(t, c) =>
           Earliest(cfg, Stream(items, rest)) == Some(Found(|t|, true, |BP_START|)) && !Contains(c, BP_END)
         case Pressed(t, key) =>
           Earliest(cfg, Stream(items, rest)) == Some(Found(|t|, false, |key|)) && key in cfg.triggers
  }

  // Any bytes can be read so.
  lemma {:induction false} AnyIsRead(cfg: Config, data: Bytes) returns (items: seq<Item>, rest: Rest)
    requires cfg.Valid()
    ensures Stream(items, rest) == data && ReadAs(cfg, items, rest)
    decreases |data|
  {
    hide Earliest, Whole, Stream, ReadAs;
    match Earliest(cfg, data) {
      case None =>
        items, rest := [], Typed(data);
        TypedIsRead(cfg, data);
      case Some(f) =>
        EarliestIsFirst(cfg, data);
        var text, behind := data[..f.idx], data[f.idx + f.len..];
        if f.isPaste {
          assert data == text + (BP_START + behind);
          items, rest := PasteIsRead(cfg, data, text, behind);
        } else {
          var key := data[f.idx..f.idx + f.len];
          assert data == text + key + behind && key in cfg.triggers;
          items, rest := AnyIsRead(cfg, behind);
          KeyIsRead(cfg, text, key, items, rest);
          items := [Pressed(text, key)] + items;
        }
    }
  }

  lemma TypedIsRead(cfg: Config, data: Bytes)
    requires Earliest(cfg, data) == None
    ensures Stream([], Typed(data)) == data && ReadAs(cfg, [], Typed(data))
  {
  }

  lemma KeyIsRead(cfg: Config, text: Bytes, key: Bytes, more: seq<Item>, rest: Rest)
    requires ReadAs(cfg, more, rest) && key in cfg.triggers
    requires Earliest(cfg, text + key + Stream(more, rest)) == Some(Found(|text|, false, |key|))
    ensures var items := [Pressed(text, key)] + more;
            Stream(items, rest) == text + key + Stream(more, rest) && ReadAs(cfg, items, rest)
  {
    hide Earliest;
    assert ([Pressed(text, key)] + more)[1..] == more;
  }

  lemma {:induction false} PasteIsRead(cfg: Config, data: Bytes, text: Bytes, behind: Bytes)
      returns (items: seq<Item>, rest: Rest)
    requires cfg.Valid() && data == text + (BP_START + behind)
    requires Earliest(cfg, data) == Some(Found(|text|, true, |BP_START|))
    ensures Stream(items, rest) == data && ReadAs(cfg, items, rest)
    decreases |behind| + 1
  {
    hide Earliest, Stream, ReadAs;
    var j := IndexOf(behind, BP_END);
    if j < 0 {
      items, rest := [], Open(text, behind);
      OpenIsRead(cfg, text, behind);
    } else {
      EndIsFirst(behind, j);
      var content, last := behind[..j], behind[j + |BP_END|..];
      assert behind == content + BP_END + last;
      assert text + (BP_START + (content + BP_END + last)) == text + (BP_START + content + BP_END) + last;
      items, rest := AnyIsRead(cfg, last);
      WholeIsRead(cfg, text, content, items, rest);
      items := [Pasted(text, content)] + items;
    }
  }

  lemma OpenIsRead(cfg: Config, text: Bytes, part: Bytes)
    requires Earliest(cfg, text + (BP_START + part)) == Some(Found(|text|, true, |BP_START|)) && !Contains(part, BP_END)
    ensures Stream([], Open(text, part)) == text + (BP_START + part) && ReadAs(cfg, [], Open(text, part))
  {
    hide Earliest;
  }

  lemma WholeIsRead(cfg: Config, text: Bytes, content: Bytes, more: seq<Item>, rest: Rest)
    requires ReadAs(cfg, more, rest) && !Contains(content, BP_END)
    requires Earliest(cfg, text + Whole(content) + Stream(more, rest)) == Some(Found(|text|, true, |BP_START|))
    ensures var items := [Pasted(text, content)] + more;
            Stream(items, rest) == text + Whole(content) + Stream(more, rest) && ReadAs(cfg, items, rest)
  {
    hide Earliest, Whole;
    assert ([Pasted(text, content)] + more)[1..] == more;
  }

  // --------------------------------------------------------------- the scan

  // What such bytes come to: what is forwarded, who is asked, what is held.
  // `quiet` holds while nothing was forwarded; k callbacks were made before.
  datatype Meaning = Meaning(sent: Bytes, calls: seq<Call>, state: State)

  function MeaningOf(cfg: Config, ans: Answers, items: seq<Item>, rest: Rest, quiet: bool, k: nat): Meaning
    decreases |items|
  {
    if items == [] then MeaningOfRest(cfg, ans, rest, quiet, k)
    else match items[0]
      case Pasted(t, c) =>
        var p := PasteSegment(cfg, ans, c, k);
        var m := MeaningOf(cfg, ans, items[1..], rest, quiet && t == [] && p.taken, k + if p.offer.Some? then 1 else 0);
        Meaning(t + p.Out() + m.sent, p.Calls() + m.calls, m.state)
      case Pressed(t, key) =>
        var handled := cfg.hasKey && ans(k, OnPasteKey);
        var m := MeaningOf(cfg, ans, items[1..], rest, quiet && t == [] && handled, k + if cfg.hasKey then 1 else 0);
        Meaning(t + (if handled then [] else key) + m.sent,
                (if cfg.hasKey then [Call(OnPasteKey, handled)] else []) + m.calls, m.state)
  }

  function MeaningOfRest(cfg: Config, ans: Answers, rest: Rest, quiet: bool, k: nat): Meaning {
    match rest
    case Typed(t) =>
      var drop := if cfg.hasDrop && quiet then DroppedBare(cfg.files, t) else None;
      var taken := drop.Some? && ans(k, OnDrop(drop.value, t));
      var asked := if drop.Some? then [Call(OnDrop(drop.value, t), taken)] else [];
      if taken then Meaning([], asked, IDLE)
      else Meaning(t[..|t| - Hold(cfg, t)], asked, State(false, t[|t| - Hold(cfg, t)..]))
    case Open(t, p) =>
      if OneLine(p) then Meaning(t, [], State(true, p)) else Meaning(t + (BP_START + p), [], IDLE)
  }

  ghost predicate Means(r: Scanned, m: Meaning) {
    Forwarded(r.segs) == m.sent && CallsOf(r.segs) == m.calls && r.state == m.state
  }

  lemma {:induction false} StreamMeans(cfg: Config, ans: Answers, items: seq<Item>, rest: Rest, quiet: bool, k: nat)
    requires cfg.Valid() && ReadAs(cfg, items, rest)
    ensures Means(Scan(cfg, ans, false, Stream(items, rest), quiet, k), MeaningOf(cfg, ans, items, rest, quiet, k))
    decreases |items|
  {
    hide Scan, Means, Earliest, PasteSegment, Whole, MeaningOfRest;
    if items == [] {
      RestMeans(cfg, ans, rest, quiet, k);
    } else {
      var more := Stream(items[1..], rest);
      match items[0] {
        case Pasted(t, c) =>
          var p := PasteSegment(cfg, ans, c, k);
          var quiet', k' := quiet && t == [] && p.taken, k + if p.offer.Some? then 1 else 0;
          PasteBehind(cfg, ans, t, c, more, quiet, k);
          StreamMeans(cfg, ans, items[1..], rest, quiet', k');
          PasteMeans(t, p, Scan(cfg, ans, false, more, quiet', k'), MeaningOf(cfg, ans, items[1..], rest, quiet', k'));
        case Pressed(t, key) =>
          var handled := cfg.hasKey && ans(k, OnPasteKey);
          var quiet', k' := quiet && t == [] && handled, k + if cfg.hasKey then 1 else 0;
          KeyBehind(cfg, ans, t, key, more, quiet, k);
          StreamMeans(cfg, ans, items[1..], rest, quiet', k');
          KeyMeans(t, key, cfg.hasKey, handled, Scan(cfg, ans, false, more, quiet', k'),
                   MeaningOf(cfg, ans, items[1..], rest, quiet', k'));
      }
    }
  }

  // Text in front of a start marker is forwarded, and the marker opens a paste.
  lemma TextOpens(cfg: Config, ans: Answers, text: Bytes, rest: Bytes, quiet: bool, k: nat)
    requires cfg.Valid() && Earliest(cfg, text + (BP_START + rest)) == Some(Found(|text|, true, |BP_START|))
    ensures Scan(cfg, ans, false, text + (BP_START + rest), quiet, k)
         == Then([Plain(text)], Scan(cfg, ans, true, rest, quiet && text == [], k))
  {
    hide IndexOf, Hold, DroppedBare, Earliest;
    var data := text + (BP_START + rest);
    assert data[..|text|] == text && data[|text| + |BP_START|..] == rest;
    assert TurnOf(cfg, ans, false, data, quiet, k) == Go([Plain(text)], true, rest, quiet && text == [], k);
  }

  lemma PasteBehind(cfg: Config, ans: Answers, text: Bytes, content: Bytes, more: Bytes, quiet: bool, k: nat)
    requires cfg.Valid() && !Contains(content, BP_END)
    requires Earliest(cfg, text + Whole(content) + more) == Some(Found(|text|, true, |BP_START|))
    ensures var p := PasteSegment(cfg, ans, content, k);
            Scan(cfg, ans, false, text + Whole(content) + more, quiet, k)
              == Then([Plain(text), p],
                      Scan(cfg, ans, false, more, quiet && text == [] && p.taken, k + if p.offer.Some? then 1 else 0))
  {
    hide Scan, Earliest, PasteSegment;
    var rest := content + BP_END + more;
    assert text + Whole(content) + more == text + (BP_START + rest);
    TextOpens(cfg, ans, text, rest, quiet, k);
    EndThen(cfg, ans, content, more, quiet && text == [], k);
    var p := PasteSegment(cfg, ans, content, k);
    ThenThen([Plain(text)], [p],
             Scan(cfg, ans, false, more, quiet && text == [] && p.taken, k + if p.offer.Some? then 1 else 0));
    assert [Plain(text)] + [p] == [Plain(text), p];
  }

  lemma KeyBehind(cfg: Config, ans: Answers, text: Bytes, key: Bytes, more: Bytes, quiet: bool, k: nat)
    requires cfg.Valid() && key != [] && Earliest(cfg, text + key + more) == Some(Found(|text|, false, |key|))
    ensures var handled := cfg.hasKey && ans(k, OnPasteKey);
            Scan(cfg, ans, false, text + key + more, quiet, k)
              == Then([Plain(text), Trigger(key, cfg.hasKey, handled)],
                      Scan(cfg, ans, false, more, quiet && text == [] && handled, k + if cfg.hasKey then 1 else 0))
  {
    hide IndexOf, Hold, DroppedBare, Earliest;
    var data := text + key + more;
    assert data[..|text|] == text && data[|text|..|text| + |key|] == key && data[|text| + |key|..] == more;
  }

  lemma PasteMeans(t: Bytes, p: Segment, r: Scanned, m: Meaning)
    requires Means(r, m)
    ensures Means(Then([Plain(t), p], r), Meaning(t + p.Out() + m.sent, p.Calls() + m.calls, m.state))
  {
    OutputsAppend([Plain(t), p], r.segs);
    RawTwo(Plain(t), p);
    CallsTwo(Plain(t), p);
    assert [] + p.Calls() == p.Calls();
  }

  lemma KeyMeans(t: Bytes, key: Bytes, asked: bool, handled: bool, r: Scanned, m: Meaning)
    requires Means(r, m)
    ensures Means(Then([Plain(t), Trigger(key, asked, handled)], r),
                  Meaning(t + (if handled then [] else key) + m.sent,
                          (if asked then [Call(OnPasteKey, handled)] else []) + m.calls, m.state))
  {
    OutputsAppend([Plain(t), Trigger(key, asked, handled)], r.segs);
    KeyOutputs(t, key, asked, handled);
  }

  lemma RestMeans(cfg: Config, ans: Answers, rest: Rest, quiet: bool, k: nat)
    requires cfg.Valid() && ReadAs(cfg, [], rest)
    ensures Means(Scan(cfg, ans, false, rest.Bytes(), quiet, k), MeaningOfRest(cfg, ans, rest, quiet, k))
  {
    match rest
    case Typed(t) => TypedMeans(cfg, ans, t, quiet, k);
    case Open(t, p) => OpenMeans(cfg, ans, t, p, quiet, k);
  }

  lemma TypedMeans(cfg: Config, ans: Answers, t: Bytes, quiet: bool, k: nat)
    requires cfg.Valid() && Earliest(cfg, t) == None
    ensures Means(Scan(cfg, ans, false, t, quiet, k), MeaningOfRest(cfg, ans, Typed(t), quiet, k))
  {
    hide Earliest, DroppedBare, HoldUpTo, CallsOf, Forwarded, TailSegments;
    if t == [] {
      NothingSeen();
      BareNeedsPath(cfg.files, t);
      assert t[..0] == [] && t[0..] == [];
    } else {
      var drop := if cfg.hasDrop && quiet then DroppedBare(cfg.files, t) else None;
      if drop.Some? && ans(k, OnDrop(drop.value, t)) {
        BareOutputs(t, drop.value);
      } else {
        TailOutputs(t, drop, |t| - Hold(cfg, t));
      }
    }
  }

  lemma OpenMeans(cfg: Config, ans: Answers, t: Bytes, p: Bytes, quiet: bool, k: nat)
    requires cfg.Valid() && ReadAs(cfg, [], Open(t, p))
    ensures Means(Scan(cfg, ans, false, t + (BP_START + p), quiet, k), MeaningOfRest(cfg, ans, Open(t, p), quiet, k))
  {
    hide Earliest, CallsOf, Forwarded;
    TextOpens(cfg, ans, t, p, quiet, k);
    var r := Scan(cfg, ans, true, p, quiet && t == [], k);
    OutputsAppend([Plain(t)], r.segs);
    PlainOutputs(t);
    if p == [] {
      NothingSeen();
    } else if OneLine(p) {
      NothingSeen();
      assert r == ScanOpen(p);
    } else {
      AbortedOutputs(p);
      assert r == ScanOpen(p);
    }
  }

  // What the scanner held before may be put in front of the read: a call does
  // what it would do in the idle state with both.
  lemma AsIfIdle(cfg: Config, ans: Answers, s: State, input: Bytes)
    requires cfg.Valid()
    ensures var r, i := Processed(cfg, ans, s, input), Scan(cfg, ans, false, s.Held() + input, true, 0);
            r.state == i.state && CallsOf(r.segs) == CallsOf(i.segs) && Forwarded(r.segs) == Forwarded(i.segs)
  {
    hide Scan;
    if s.inPaste {
      assert s.Held() + input == BP_START + (s.buf + input);
      StartThen(cfg, ans, s.buf + input, true, 0);
      var r := Processed(cfg, ans, s, input);
      OutputsAppend([Plain([])], r.segs);
      PlainOutputs([]);
    } else {
      assert s.Held() == s.buf;
    }
  }

  // ------------------------------------------------------------ the session

  // The pastes that name a file, in order.
  function Drops(files: Files, items: seq<Item>): seq<PendingUpload> {
    if items == [] then [] else DropOf(files, items[0]) + Drops(files, items[1..])
  }

  function DropOf(files: Files, it: Item): seq<PendingUpload> {
    match it
    case Pasted(_, c) =>
      (match DroppedLocal(files, c) case Some(p) => [PendingUpload(p, Whole(c))] case None => [])
    case Pressed(_, _) => []
  }

  // Nothing of the items reaches the agent: there is no text between them, every
  // paste names a file, and every key pastes an image of the clipboard. Each of
  // them then makes one callback, so the i-th of them makes the (k + i)-th.
  ghost predicate Silent(params: Params, env: Env, items: seq<Item>, k: nat) {
    forall i :: 0 <= i < |items| ==> SilentItem(params, env, items[i], k + i)
  }

  predicate SilentItem(params: Params, env: Env, it: Item, k: nat) {
    it.text == [] && match it
                     case Pasted(_, c) => DroppedLocal(params.cfg.files, c).Some?
                     case Pressed(_, _) => params.hasClip && env.clip(k).Image?
  }

  // The file the bare text behind such items names, if it does.
  ghost function BareOf(params: Params, env: Env, items: seq<Item>, rest: Rest,
                        quiet: bool, k: nat): seq<PendingUpload> {
    if quiet && rest.Typed? && Silent(params, env, items, k) then
      match DroppedBare(params.cfg.files, rest.text) case Some(p) => [PendingUpload(p, rest.text)] case None => []
    else []
  }

  // The files a read asks about, in order.
  ghost function AllDrops(params: Params, env: Env, items: seq<Item>, rest: Rest): seq<PendingUpload> {
    Drops(params.cfg.files, items) + BareOf(params, env, items, rest, true, 0)
  }

  // The drops among the callbacks.
  function DropsIn(calls: seq<Call>): seq<PendingUpload> {
    if calls == [] then [] else DropsIn(calls[..|calls| - 1]) + DropIn(calls[|calls| - 1])
  }

  function DropIn(c: Call): seq<PendingUpload> {
    match c.what case OnDrop(p, b) => [PendingUpload(p, b)] case OnPasteKey => []
  }

  lemma {:induction false} DropsInAppend(a: seq<Call>, b: seq<Call>)
    ensures DropsIn(a + b) == DropsIn(a) + DropsIn(b)
    decreases |b|
  {
    hide DropIn;
    if b == [] {
      assert a + b == a;
    } else {
      assert (a + b)[..|a + b| - 1] == a + b[..|b| - 1];
      DropsInAppend(a, b[..|b| - 1]);
    }
  }

  lemma DropsInOne(c: Call)
    ensures DropsIn([c]) == DropIn(c) && DropsIn([]) == []
  {
    assert [c][..0] == [];
    assert DropsIn([c]) == [] + DropIn(c);
  }

  lemma {:induction false} DropsAskedAbout(params: Params, env: Env, items: seq<Item>, rest: Rest, quiet: bool, k: nat)
    requires params.Valid() && params.uploads && PlainShell(env)
    ensures DropsIn(MeaningOf(params.cfg, SessionAnswers(params, env), items, rest, quiet, k).calls)
         == Drops(params.cfg.files, items) + BareOf(params, env, items, rest, quiet, k)
    decreases |items|
  {
    hide DropsIn, DroppedLocal, SessionAnswers, BareOf, MeaningOf, Drops;
    if items == [] {
      RestAsks(params, env, rest, quiet, k);
    } else {
      var taken := match items[0]
        case Pasted(_, c) => DroppedLocal(params.cfg.files, c).Some?
        case Pressed(_, _) => params.hasClip && env.clip(k).Image?;
      var quiet', k' := quiet && items[0].text == [] && taken, if items[0].Pasted? && !taken then k else k + 1;
      DropsAskedAbout(params, env, items[1..], rest, quiet', k');
      SilentFirst(params, env, items, k);
      SilentItemIs(params, env, items[0], k);
      BareMoves(params, env, items, rest, quiet, k, taken, quiet', k');
      FirstAsks(params, env, items, rest, quiet, k, taken, quiet', k');
    }
  }

  // The first item asks about its own drop and leaves the others to the rest.
  lemma FirstAsks(params: Params, env: Env, items: seq<Item>, rest: Rest, quiet: bool, k: nat,
                  taken: bool, quiet': bool, k': nat)
    requires params.Valid() && params.uploads && PlainShell(env) && items != []
    requires taken == match items[0]
                      case Pasted(_, c) => DroppedLocal(params.cfg.files, c).Some?
                      case Pressed(_, _) => params.hasClip && env.clip(k).Image?
    requires quiet' == (quiet && items[0].text == [] && taken) && k' == if items[0].Pasted? && !taken then k else k + 1
    ensures var ans := SessionAnswers(params, env);
            && DropsIn(MeaningOf(params.cfg, ans, items, rest, quiet, k).calls)
                 == DropOf(params.cfg.files, items[0])
                  + DropsIn(MeaningOf(params.cfg, ans, items[1..], rest, quiet', k').calls)
            && Drops(params.cfg.files, items)
                 == DropOf(params.cfg.files, items[0]) + Drops(params.cfg.files, items[1..])
  {
    hide DropsIn, DroppedLocal, SessionAnswers, Whole, MeaningOfRest, PasteSegment;
    var ans := SessionAnswers(params, env);
    var m := MeaningOf(params.cfg, ans, items[1..], rest, quiet', k');
    match items[0] {
      case Pasted(t, c) =>
        PasteAsks(params, env, c, k);
        DropsInAppend(PasteSegment(params.cfg, ans, c, k).Calls(), m.calls);
      case Pressed(t, key) =>
        AnswerIs(params, env, k, OnPasteKey);
        DropsInAppend([Call(OnPasteKey, taken)], m.calls);
        DropsInOne(Call(OnPasteKey, taken));
    }
  }

  lemma SilentItemIs(params: Params, env: Env, it: Item, k: nat)
    ensures SilentItem(params, env, it, k) == (it.text == [] &&
      if it.Pasted? then DroppedLocal(params.cfg.files, it.content).Some? else params.hasClip && env.clip(k).Image?)
  {
  }

  lemma SilentFirst(params: Params, env: Env, items: seq<Item>, k: nat)
    requires items != []
    ensures Silent(params, env, items, k)
        <==> SilentItem(params, env, items[0], k) && Silent(params, env, items[1..], k + 1)
  {
    hide Silent, SilentItem;
    if Silent(params, env, items, k) {
      SilentSplits(params, env, items, k);
    }
    if SilentItem(params, env, items[0], k) && Silent(params, env, items[1..], k + 1) {
      SilentJoins(params, env, items, k);
    }
  }

  lemma SilentSplits(params: Params, env: Env, items: seq<Item>, k: nat)
    requires items != [] && Silent(params, env, items, k)
    ensures SilentItem(params, env, items[0], k) && Silent(params, env, items[1..], k + 1)
  {
    hide SilentItem;
    forall i | 0 <= i < |items[1..]| ensures SilentItem(params, env, items[1..][i], k + 1 + i) {
      assert items[i + 1] == items[1..][i] && k + (i + 1) == k + 1 + i;
    }
  }

  lemma SilentJoins(params: Params, env: Env, items: seq<Item>, k: nat)
    requires items != [] && SilentItem(params, env, items[0], k) && Silent(params, env, items[1..], k + 1)
    ensures Silent(params, env, items, k)
  {
    hide SilentItem;
    forall i | 0 <= i < |items| ensures SilentItem(params, env, items[i], k + i) {
      if i > 0 {
        assert items[1..][i - 1] == items[i] && k + 1 + (i - 1) == k + i;
      }
    }
  }

  lemma BareMoves(params: Params, env: Env, items: seq<Item>, rest: Rest, quiet: bool, k: nat,
                  taken: bool, quiet': bool, k': nat)
    requires items != [] && quiet' == (quiet && items[0].text == [] && taken) && (taken ==> k' == k + 1)
    requires SilentItem(params, env, items[0], k) <==> items[0].text == [] && taken
    requires Silent(params, env, items, k)
        <==> SilentItem(params, env, items[0], k) && Silent(params, env, items[1..], k + 1)
    ensures BareOf(params, env, items, rest, quiet, k) == BareOf(params, env, items[1..], rest, quiet', k')
  {
    hide Silent, SilentItem, DroppedBare;
  }

  lemma PasteAsks(params: Params, env: Env, content: Bytes, k: nat)
    requires params.Valid() && params.uploads && PlainShell(env)
    ensures var p, file := PasteSegment(params.cfg, SessionAnswers(params, env), content, k),
                           DroppedLocal(params.cfg.files, content);
            && p.offer == file && p.taken == file.Some?
            && DropsIn(p.Calls()) == DropOf(params.cfg.files, Pasted([], content))
  {
    hide DroppedLocal, SessionAnswers;
    var file := DroppedLocal(params.cfg.files, content);
    if file.Some? {
      PlainTakes(params, env, k, file.value, Whole(content));
      DropsInOne(Call(OnDrop(file.value, Whole(content)), true));
    } else {
      DropsInOne(Call(OnPasteKey, true));
    }
  }

  // Onto a plain shell a drop is always taken, for the confirm.
  lemma PlainTakes(params: Params, env: Env, k: nat, path: Bytes, b: Bytes)
    requires params.uploads && PlainShell(env)
    ensures SessionAnswers(params, env)(k, OnDrop(path, b))
  {
    AnswerIs(params, env, k, OnDrop(path, b));
    assert !env.alt(k);
  }

  lemma RestAsks(params: Params, env: Env, rest: Rest, quiet: bool, k: nat)
    requires params.Valid() && params.uploads && PlainShell(env)
    ensures DropsIn(MeaningOf(params.cfg, SessionAnswers(params, env), [], rest, quiet, k).calls)
         == Drops(params.cfg.files, []) + BareOf(params, env, [], rest, quiet, k)
  {
    hide DroppedBare, SessionAnswers, Hold;
    DropsInOne(Call(OnPasteKey, true));
    if rest.Typed? && quiet && DroppedBare(params.cfg.files, rest.text).Some? {
      var path := DroppedBare(params.cfg.files, rest.text).value;
      PlainTakes(params, env, k, path, rest.text);
      DropsInOne(Call(OnDrop(path, rest.text), true));
    }
  }

  // All but the last.
  function Earlier(drops: seq<PendingUpload>): seq<PendingUpload> {
    if drops == [] then [] else drops[..|drops| - 1]
  }

  function LastOf(drops: seq<PendingUpload>): Option<PendingUpload> {
    if drops == [] then None else Some(drops[|drops| - 1])
  }

  function Bracketed(drops: seq<PendingUpload>): Bytes {
    if drops == [] then [] else Bracketed(drops[..|drops| - 1]) + drops[|drops| - 1].bracketed
  }

  // What the first n callbacks come to when every drop among them is taken.
  lemma {:induction false} PlainCallbacks(params: Params, env: Env, calls: seq<Call>, n: nat)
    requires params.uploads && PlainShell(env) && n <= |calls| && Answered(SessionAnswers(params, env), 0, calls)
    ensures var drops := DropsIn(calls[..n]);
            && LastTaken(env, calls, n) == LastOf(drops)
            && Forgotten(env, calls, n) == Bracketed(Earlier(drops))
    decreases n
  {
    hide SessionAnswers, Bracketed, Earlier, LastOf, BracketedOf, Answered;
    if n == 0 {
      NoDrops();
    } else {
      PlainCallbacks(params, env, calls, n - 1);
      assert calls[..n][..n - 1] == calls[..n - 1];
      PlainCallback(params, env, calls, n - 1);
      var drops := DropsIn(calls[..n - 1]);
      if calls[n - 1].what.OnDrop? {
        NextDrop(drops, PendingUpload(calls[n - 1].what.path, calls[n - 1].what.bracketed));
      } else {
        assert drops + [] == drops;
        assert Forgotten(env, calls, n - 1) + [] == Forgotten(env, calls, n - 1);
      }
    }
  }

  lemma PlainCallback(params: Params, env: Env, calls: seq<Call>, k: nat)
    requires params.uploads && PlainShell(env) && k < |calls| && Answered(SessionAnswers(params, env), 0, calls)
    ensures Asks(env, calls, k) <==> calls[k].what.OnDrop?
  {
    hide SessionAnswers;
    assert !env.alt(k) && calls[k].handled == SessionAnswers(params, env)(0 + k, calls[k].what);
    if calls[k].what.OnDrop? {
      PlainTakes(params, env, k, calls[k].what.path, calls[k].what.bracketed);
    }
  }

  lemma NoDrops()
    ensures LastOf([]) == None && Earlier([]) == [] && Bracketed([]) == []
  {
  }

  lemma NextDrop(drops: seq<PendingUpload>, d: PendingUpload)
    ensures LastOf(drops + [d]) == Some(d) && Earlier(drops + [d]) == drops
    ensures Bracketed(drops) == Bracketed(Earlier(drops)) + BracketedOf(LastOf(drops))
  {
  }

  // Files dropped in one read onto a plain shell, whatever else the read holds
  // and whatever the scanner held before it: nothing is uploaded yet, the
  // confirm is about the last of them alone, and of the earlier ones neither
  // the file nor the path goes anywhere.
  lemma DropsInOneRead(params: Params, m: Mode, before: Bytes, summon: bool, env: Env, items: seq<Item>, rest: Rest)
    requires params.Valid() && params.uploads && PlainShell(env)
    requires m.scan.Held() + before == Stream(items, rest) && ReadAs(params.cfg, items, rest)
    ensures var s, drops := ScanStep(params, m, before, summon, env), AllDrops(params, env, items, rest);
            && s.mode.pending == LastOf(drops)
            && (forall e :: e in s.events ==> !e.Upload?)
            && SpentByScan(params, m, before, env).forgotten == Bracketed(Earlier(drops))
  {
    hide Scan, DropsIn, Forgotten, LastTaken, Uploaded, HandledKeys, PendingOf, EventsOf, Answered, MeaningOf,
         SessionAnswers,
         LastOf, Earlier, Bracketed, Stream, ReadAs, Forwarded, PlainShell, BareOf, Drops;
    var ans := SessionAnswers(params, env);
    var r := Processed(params.cfg, ans, m.scan, before);
    var calls := CallsOf(r.segs);
    MeantBy(params, m, before, env, items, rest);
    DropsAskedAbout(params, env, items, rest, true, 0);
    CallsAnswered(params.cfg, ans, m.scan.inPaste, m.scan.buf + before, true, 0);
    PlainCallbacks(params, env, calls, |calls|);
    assert calls[..|calls|] == calls;
    PendingIsLastTaken(params, env, calls, |calls|);
    NoUploadYet(params, env, calls);
  }

  // What the agent gets of such a read, what is asked, and what is held after.
  lemma MeantBy(params: Params, m: Mode, before: Bytes, env: Env, items: seq<Item>, rest: Rest)
    requires params.Valid() && m.scan.Held() + before == Stream(items, rest) && ReadAs(params.cfg, items, rest)
    ensures Means(Processed(params.cfg, SessionAnswers(params, env), m.scan, before),
                  MeaningOf(params.cfg, SessionAnswers(params, env), items, rest, true, 0))
  {
    hide Scan, MeaningOf, SessionAnswers;
    AsIfIdle(params.cfg, SessionAnswers(params, env), m.scan, before);
    StreamMeans(params.cfg, SessionAnswers(params, env), items, rest, true, 0);
  }

  lemma NoUploadYet(params: Params, env: Env, calls: seq<Call>)
    requires PlainShell(env)
    ensures forall e :: e in EventsOf(params, env, calls, |calls|) ==> !e.Upload?
  {
    forall e | e in EventsOf(params, env, calls, |calls|) ensures !e.Upload? {
      if e.Upload? {
        var k := ScanUploadsOnlyDrops(params, env, calls, |calls|, e.path, e.result);
      }
    }
  }

  // So no drop of a read overtakes another if and only if the read has at most
  // one: a paste that names a file, or bare text that does behind items of
  // which nothing reaches the agent.
  lemma ForgottenIff(params: Params, m: Mode, before: Bytes, env: Env, items: seq<Item>, rest: Rest)
    requires params.Valid() && params.uploads && PlainShell(env)
    requires m.scan.Held() + before == Stream(items, rest) && ReadAs(params.cfg, items, rest)
    ensures SpentByScan(params, m, before, env).forgotten == []
       <==> |Drops(params.cfg.files, items)| + |BareOf(params, env, items, rest, true, 0)| <= 1
  {
    hide SpentByScan, Stream, ReadAs, Drops, BareOf;
    DropsInOneRead(params, m, before, false, env, items, rest);
    var drops := AllDrops(params, env, items, rest);
    DropsNotEmpty(params, env, items, rest);
    if |drops| > 1 {
      var e := Earlier(drops);
      assert e[|e| - 1] in drops;
      assert Bracketed(e) == Bracketed(e[..|e| - 1]) + e[|e| - 1].bracketed;
    }
  }

  lemma DropsNotEmpty(params: Params, env: Env, items: seq<Item>, rest: Rest)
    ensures forall d :: d in AllDrops(params, env, items, rest) ==> d.bracketed != []
  {
    hide DroppedBare;
    PastesNotEmpty(params.cfg.files, items);
    if rest.Typed? {
      BareNeedsPath(params.cfg.files, rest.text);
    }
  }

  lemma {:induction false} PastesNotEmpty(files: Files, items: seq<Item>)
    ensures forall d :: d in Drops(files, items) ==> d.bracketed != []
    decreases |items|
  {
    if items != [] {
      PastesNotEmpty(files, items[1..]);
    }
  }

  // Where no confirm is opened nothing is forgotten: with paste upload off, or
  // while a full-screen program owns the terminal.
  lemma NothingForgotten(params: Params, m: Mode, before: Bytes, env: Env)
    requires params.Valid() && (!params.uploads || forall k: nat :: env.alt(k))
    ensures SpentByScan(params, m, before, env).forgotten == []
  {
    hide Scan, Answered, Forgotten;
    CallsAnswered(params.cfg, SessionAnswers(params, env), m.scan.inPaste, m.scan.buf + before, true, 0);
    NeverAsks(params, env, CallsOfScan(params, m, before, env), |CallsOfScan(params, m, before, env)|);
  }

  lemma {:induction false} NeverAsks(params: Params, env: Env, calls: seq<Call>, n: nat)
    requires (!params.uploads || forall k: nat :: env.alt(k)) && n <= |calls|
    requires Answered(SessionAnswers(params, env), 0, calls)
    ensures Forgotten(env, calls, n) == []
    decreases n
  {
    if n > 0 {
      NeverAsks(params, env, calls, n - 1);
      assert calls[n - 1].handled == SessionAnswers(params, env)(0 + (n - 1), calls[n - 1].what);
      AnswerIs(params, env, n - 1, calls[n - 1].what);
    }
  }

  // ------------------------------------------------------------ two drops

  lemma MarkerInFront(cfg: Config, rest: Bytes)
    requires cfg.Valid()
    ensures Earliest(cfg, BP_START + rest) == Some(Found(0, true, |BP_START|))
  {
    var data := BP_START + rest;
    EarliestIsFirst(cfg, data);
    assert data[0..|BP_START|] == BP_START;
    assert At(data, BP_START, 0) && BP_START in cfg.Markers();
  }

  lemma WholeInFront(cfg: Config, content: Bytes, rest: Bytes)
    requires cfg.Valid()
    ensures Earliest(cfg, [] + Whole(content) + rest) == Some(Found(0, true, |BP_START|))
  {
    hide Earliest;
    assert [] + Whole(content) + rest == BP_START + (content + BP_END + rest);
    MarkerInFront(cfg, content + BP_END + rest);
  }

  // Pastes one behind the other, and text without a marker behind them.
  lemma {:induction false} PastesAreRead(cfg: Config, contents: seq<Bytes>, text: Bytes) returns (items: seq<Item>)
    requires cfg.Valid() && (forall c :: c in contents ==> !Contains(c, BP_END)) && Earliest(cfg, text) == None
    ensures |items| == |contents| && forall i :: 0 <= i < |items| ==> items[i] == Pasted([], contents[i])
    ensures ReadAs(cfg, items, Typed(text))
    decreases |contents|
  {
    hide Earliest, Stream, ReadAs, Whole;
    if contents == [] {
      items := [];
      TypedIsRead(cfg, text);
    } else {
      var more := PastesAreRead(cfg, contents[1..], text);
      items := [Pasted([], contents[0])] + more;
      assert contents[0] in contents;
      WholeInFront(cfg, contents[0], Stream(more, Typed(text)));
      WholeIsRead(cfg, [], contents[0], more, Typed(text));
    }
  }

  // A read that comes to two taken drops and nothing else.
  lemma TwoDropsStep(params: Params, before: Bytes, summon: bool, env: Env, items: seq<Item>, rest: Rest,
                     x: PendingUpload, y: PendingUpload)
    requires params.Valid() && params.uploads && PlainShell(env)
    requires before == Stream(items, rest) && ReadAs(params.cfg, items, rest)
    requires MeaningOf(params.cfg, SessionAnswers(params, env), items, rest, true, 0)
          == Meaning([], TwoTaken(x, y), IDLE)
    ensures var s := ScanStep(params, START, before, summon, env);
            && s.events == [] && s.mode == Mode(IDLE, Some(y), None)
            && SpentByScan(params, START, before, env).forgotten == x.bracketed
  {
    hide Scan, MeaningOf, SessionAnswers, ReadAs, Stream, EventsOf, PendingOf, Forgotten, LastTaken, Uploaded,
         HandledKeys,
         DropsIn, Answered, PlainShell, CallsOf, Forwarded;
    assert START.scan.Held() + before == before;
    MeantBy(params, START, before, env, items, rest);
    var r := Processed(params.cfg, SessionAnswers(params, env), START.scan, before);
    var calls := TwoTaken(x, y);
    assert CallsOf(r.segs) == calls && Forwarded(r.segs) == [] && r.state == IDLE;
    assert calls[..2] == calls;
    CallsAnswered(params.cfg, SessionAnswers(params, env), START.scan.inPaste, START.scan.buf + before, true, 0);
    PlainCallbacks(params, env, calls, 2);
    PendingIsLastTaken(params, env, calls, 2);
    DropsInTwo(x, y);
    OneBracketed([x, y]);
    DropsDoNothing(params, env, calls, 2);
  }

  function TwoTaken(x: PendingUpload, y: PendingUpload): seq<Call> {
    [Call(OnDrop(x.path, x.bracketed), true), Call(OnDrop(y.path, y.bracketed), true)]
  }

  lemma DropsInTwo(x: PendingUpload, y: PendingUpload)
    ensures DropsIn(TwoTaken(x, y)) == [x, y]
  {
    var calls := TwoTaken(x, y);
    assert calls[..1] == [calls[0]];
    DropsInOne(calls[0]);
    assert DropsIn(calls) == [x] + [y];
  }

  lemma {:induction false} DropsDoNothing(params: Params, env: Env, calls: seq<Call>, n: nat)
    requires PlainShell(env) && n <= |calls| && forall c :: c in calls ==> c.what.OnDrop?
    ensures EventsOf(params, env, calls, n) == []
    decreases n
  {
    if n > 0 {
      DropsDoNothing(params, env, calls, n - 1);
      assert calls[n - 1] in calls && !env.alt(n - 1);
    }
  }

  // So "every file a read reports is asked about" is false: of two dropped in
  // one read the second overtakes the first. The step uploads nothing, sends
  // nothing, and leaves only the second pending.
  lemma TwoDropsLoseOne(params: Params, a: Bytes, b: Bytes, summon: bool, env: Env)
    requires params.Valid() && params.uploads && PlainShell(env)
    requires !Contains(a, BP_END) && !Contains(b, BP_END)
    requires DroppedLocal(params.cfg.files, a).Some? && DroppedLocal(params.cfg.files, b).Some?
    ensures var s := ScanStep(params, START, Whole(a) + Whole(b), summon, env);
            && s.events == []
            && s.mode == Mode(IDLE, Some(PendingUpload(DroppedLocal(params.cfg.files, b).value, Whole(b))), None)
            && SpentByScan(params, START, Whole(a) + Whole(b), env).forgotten == Whole(a)
  {
    hide DroppedLocal, ScanStep, SpentByScan, Whole, Earliest, SessionAnswers, MeaningOf, ReadAs, Stream, PlainShell;
    var x, y := PendingUpload(DroppedLocal(params.cfg.files, a).value, Whole(a)),
                PendingUpload(DroppedLocal(params.cfg.files, b).value, Whole(b));
    NothingEarliest(params.cfg);
    var items := PastesAreRead(params.cfg, [a, b], []);
    assert items == [Pasted([], a), Pasted([], b)];
    TwoPastesStream(a, b);
    TwoPastesMean(params, env, a, b, x, y);
    TwoDropsStep(params, Whole(a) + Whole(b), summon, env, items, Typed([]), x, y);
  }

  lemma TwoPastesStream(a: Bytes, b: Bytes)
    ensures Stream([Pasted([], a), Pasted([], b)], Typed([])) == Whole(a) + Whole(b)
  {
    hide Whole;
    var one, items := [Pasted([], b)], [Pasted([], a), Pasted([], b)];
    assert items[1..] == one && one[1..] == [];
    assert Stream(one, Typed([])) == [] + Whole(b) + [] == Whole(b);
    assert Stream(items, Typed([])) == [] + Whole(a) + Whole(b) == Whole(a) + Whole(b);
  }

  lemma TwoPastesMean(params: Params, env: Env, a: Bytes, b: Bytes, x: PendingUpload, y: PendingUpload)
    requires params.Valid() && params.uploads && PlainShell(env)
    requires DroppedLocal(params.cfg.files, a) == Some(x.path) && x.bracketed == Whole(a)
    requires DroppedLocal(params.cfg.files, b) == Some(y.path) && y.bracketed == Whole(b)
    ensures MeaningOf(params.cfg, SessionAnswers(params, env), [Pasted([], a), Pasted([], b)], Typed([]), true, 0)
         == Meaning([], TwoTaken(x, y), IDLE)
  {
    hide DroppedLocal, Whole, SessionAnswers, MeaningOfRest, PasteSegment;
    var cfg, ans, one := params.cfg, SessionAnswers(params, env), [Pasted([], b)];
    NothingTypedMeans(params, env, 2);
    PasteTaken(params, env, a, 0);
    PasteTaken(params, env, b, 1);
    assert one[1..] == [] && [Pasted([], a), Pasted([], b)][1..] == one;
    assert MeaningOf(cfg, ans, [], Typed([]), true, 2) == Meaning([], [], IDLE);
    assert MeaningOf(cfg, ans, one, Typed([]), true, 1) == Meaning([], [Call(OnDrop(y.path, y.bracketed), true)], IDLE);
  }

  // So is one whose read ends in bare text that names another file.
  lemma BareDropLosesPaste(params: Params, a: Bytes, text: Bytes, summon: bool, env: Env)
    requires params.Valid() && params.uploads && PlainShell(env)
    requires !Contains(a, BP_END) && DroppedLocal(params.cfg.files, a).Some?
    requires Earliest(params.cfg, text) == None && DroppedBare(params.cfg.files, text).Some?
    ensures var s := ScanStep(params, START, Whole(a) + text, summon, env);
            && s.events == []
            && s.mode == Mode(IDLE, Some(PendingUpload(DroppedBare(params.cfg.files, text).value, text)), None)
            && SpentByScan(params, START, Whole(a) + text, env).forgotten == Whole(a)
  {
    hide DroppedLocal, DroppedBare, ScanStep, SpentByScan, Whole, Earliest, SessionAnswers, ReadAs, Hold;
    var x, y := PendingUpload(DroppedLocal(params.cfg.files, a).value, Whole(a)),
                PendingUpload(DroppedBare(params.cfg.files, text).value, text);
    var items := PastesAreRead(params.cfg, [a], text);
    assert items == [Pasted([], a)] && items[1..] == [];
    PasteTaken(params, env, a, 0);
    PlainTakes(params, env, 1, y.path, text);
    assert Stream(items, Typed(text)) == [] + Whole(a) + text == Whole(a) + text;
    TwoDropsStep(params, Whole(a) + text, summon, env, items, Typed(text), x, y);
  }

  lemma PasteTaken(params: Params, env: Env, content: Bytes, k: nat)
    requires params.Valid() && params.uploads && PlainShell(env) && DroppedLocal(params.cfg.files, content).Some?
    ensures var p, path := PasteSegment(params.cfg, SessionAnswers(params, env), content, k),
                           DroppedLocal(params.cfg.files, content).value;
            p.taken && p.offer == Some(path) && p.Out() == [] && p.Calls() == [Call(OnDrop(path, Whole(content)), true)]
  {
    hide DroppedLocal, SessionAnswers;
    PlainTakes(params, env, k, DroppedLocal(params.cfg.files, content).value, Whole(content));
  }

  lemma NothingTypedMeans(params: Params, env: Env, k: nat)
    ensures MeaningOfRest(params.cfg, SessionAnswers(params, env), Typed([]), true, k) == Meaning([], [], IDLE)
  {
    hide SessionAnswers, DroppedBare, HoldUpTo;
    BareNeedsPath(params.cfg.files, []);
  }

  lemma NothingEarliest(cfg: Config)
    requires cfg.Valid()
    ensures Earliest(cfg, []) == None
  {
    EarliestIsFirst(cfg, []);
  }

  lemma OneBracketed(drops: seq<PendingUpload>)
    requires |drops| == 2
    ensures Bracketed(Earlier(drops)) == drops[0].bracketed && LastOf(drops) == Some(drops[1])
  {
    assert Earlier(drops) == [drops[0]];
    assert [drops[0]][..0] == [];
    assert Bracketed([drops[0]]) == [] + drops[0].bracketed;
  }
}
