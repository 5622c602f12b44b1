// The bounded tail of a build log: the last few non-blank lines of everything
// written, however the writes were cut.
module BuildTails {
  import opened ByteStrings
  import opened Lines

  predicate Blank(line: Bytes) {
    TrimSpace(line) == []
  }

  function NonBlank(lines: seq<Bytes>): seq<Bytes> {
    if lines == [] then []
    else NonBlank(lines[..|lines| - 1]) + (if Blank(lines[|lines| - 1]) then [] else [lines[|lines| - 1]])
  }

  // The reference: what should be kept of a whole stream.
  function Kept(stream: Bytes, max: nat): (seq<Bytes>, Bytes) {
    (TakeLast(NonBlank(Complete(stream)), max), Rest(stream))
  }

  // Write's loop: the complete lines worth keeping.
  method DropBlank(complete: seq<Bytes>) returns (lines: seq<Bytes>)
    ensures lines == NonBlank(complete)
  {
    lines := [];
    for i := 0 to |complete|
      invariant lines == NonBlank(complete[..i])
    {
      assert complete[..i + 1][..i] == complete[..i];
      if TrimSpace(complete[i]) == [] {
        continue;
      }
      lines := lines + [complete[i]];
    }
    assert complete[..|complete|] == complete;
  }

  class BuildTail {
    var lines: seq<Bytes>
    var part: Bytes
    const max: nat

    constructor (max: nat)
      ensures this.max == max && (lines, part) == Kept([], max)
    {
      this.max := max;
      lines, part := [], [];
    }

    method Write(p: Bytes) returns (n: nat)
      modifies this
      ensures n == |p|
      ensures (lines, part) == Written(old(lines), old(part), max, p)
    {
      hide Split, TrimSpace;
      part := part + p;
      n := |p|;
      if LF !in part {
        NoNewline(part);
        assert lines + [] == lines;
        return;
      }
      var parts := Split(part);
      part := parts[|parts| - 1];
      var complete := parts[..|parts| - 1];
      var added := DropBlank(complete);
      lines := lines + added;
      if |lines| > max {
        lines := lines[|lines| - max..];
      }
    }

    // The retained tail with any unterminated final line.
    method Render() returns (s: Bytes)
      ensures s == Rendered(lines, part)
      ensures var shown := ShownOf(lines, part);
              shown != [] && (forall l :: l in shown ==> LF !in l) ==> Split(s) == shown
    {
      var out := lines;
      var rest := TrimSpace(part);
      assert lines + [] == lines;
      if rest != [] {
        out := out + [rest];
      }
      s := Join(out, [LF]);
      if out != [] && forall l :: l in out ==> LF !in l {
        SplitUndoesJoin(out);
      }
    }
  }

  function Rendered(lines: seq<Bytes>, part: Bytes): Bytes {
    Join(ShownOf(lines, part), [LF])
  }

  // The kept lines and the unfinished one, trimmed, if there is anything in it.
  function ShownOf(lines: seq<Bytes>, part: Bytes): seq<Bytes> {
    lines + (if Blank(part) then [] else [TrimSpace(part)])
  }

  // The lines of a whole stream worth showing: the last max complete ones that
  // are not blank and the unfinished one.
  function Shown(stream: Bytes, max: nat): seq<Bytes> {
    ShownOf(Kept(stream, max).0, Kept(stream, max).1)
  }

  // Whatever the writes, the report split at its newlines is exactly those
  // lines, at most one more than max, and it is empty when there is none.
  lemma ReportReadsBack(writes: seq<Bytes>, max: nat)
    ensures var kept := WrittenAll(writes, max);
            var report, shown := Rendered(kept.0, kept.1), Shown(Concat(writes), max);
            && |shown| <= max + 1 && (if shown == [] then report == [] else Split(report) == shown)
            && forall l :: l in shown ==> LF !in l && !(l == [])
  {
    hide TrimSpace, Split;
    var stream := Concat(writes);
    TailRefinesStream(writes, max);
    KeptShape(stream, max);
    TrimKeepsOff(Rest(stream));
    var shown := Shown(stream, max);
    forall l | l in shown ensures LF !in l && l != [] {
      if l in Kept(stream, max).0 {
        BlankNothing();
      }
    }
    if shown != [] {
      SplitUndoesJoin(shown);
    }
  }

  lemma BlankNothing()
    ensures Blank([])
  {
  }

  lemma TrimKeepsOff(s: Bytes)
    ensures LF !in s ==> LF !in TrimSpace(s)
  {
    LeftKeepsOff(s);
    assert TrimRight(TrimLeft(s)) <= TrimLeft(s);
  }

  lemma {:induction false} LeftKeepsOff(s: Bytes)
    ensures LF !in s ==> LF !in TrimLeft(s)
    decreases |s|
  {
    if SpaceAtFront(s) > 0 {
      LeftKeepsOff(s[SpaceAtFront(s)..]);
    }
  }

  // One write's effect on the two fields. A write that completes no line
  // trims nothing.
  function Written(lines: seq<Bytes>, part: Bytes, max: nat, p: Bytes): (seq<Bytes>, Bytes) {
    var all := lines + NonBlank(Complete(part + p));
    (if LF in part + p then TakeLast(all, max) else all, Rest(part + p))
  }

  function WrittenAll(writes: seq<Bytes>, max: nat): (seq<Bytes>, Bytes) {
    if writes == [] then ([], [])
    else
      var before := WrittenAll(writes[..|writes| - 1], max);
      Written(before.0, before.1, max, writes[|writes| - 1])
  }

  lemma {:induction false} NonBlankAppend(a: seq<Bytes>, b: seq<Bytes>)
    ensures NonBlank(a + b) == NonBlank(a) + NonBlank(b)
    decreases |b|
  {
    if b == [] {
      assert a + b == a;
    } else {
      var init, last := b[..|b| - 1], b[|b| - 1];
      NonBlankAppend(a, init);
      InitAppend(a, b);
      var more := if Blank(last) then [] else [last];
      assert NonBlank(a + b) == NonBlank(a + init) + more;
    }
  }

  lemma InitAppend(a: seq<Bytes>, b: seq<Bytes>)
    requires b != []
    ensures (a + b)[..|a + b| - 1] == a + b[..|b| - 1] && (a + b)[|a + b| - 1] == b[|b| - 1]
  {
  }

  lemma KeptAppend(stream: Bytes, max: nat, p: Bytes)
    ensures var k := Kept(stream, max); Written(k.0, k.1, max, p) == Kept(stream + p, max)
  {
    SplitAppend(stream, p);
    var was, more := NonBlank(Complete(stream)), NonBlank(Complete(Rest(stream) + p));
    assert Complete(stream + p) == Complete(stream) + Complete(Rest(stream) + p);
    NonBlankAppend(Complete(stream), Complete(Rest(stream) + p));
    TakeLastAppend(was, more, max);
    if LF !in Rest(stream) + p {
      assert Complete(Rest(stream) + p) == [];
    }
  }

  // The kept lines and the unfinished one depend on the stream alone, not on
  // how it was cut into writes.
  lemma {:induction false} TailRefinesStream(writes: seq<Bytes>, max: nat)
    ensures WrittenAll(writes, max) == Kept(Concat(writes), max)
  {
    if writes != [] {
      TailRefinesStream(writes[..|writes| - 1], max);
      KeptAppend(Concat(writes[..|writes| - 1]), max, writes[|writes| - 1]);
    }
  }

  // So a failed build's report shows the end of its log: two runs that wrote
  // the same bytes read the same, and at most max complete lines are held.
  lemma SameBytesSameReport(a: seq<Bytes>, b: seq<Bytes>, max: nat)
    requires Concat(a) == Concat(b)
    ensures WrittenAll(a, max) == WrittenAll(b, max) && |WrittenAll(a, max).0| <= max
    ensures LF !in WrittenAll(a, max).1
    ensures forall l :: l in WrittenAll(a, max).0 ==> LF !in l && !Blank(l)
  {
    TailRefinesStream(a, max);
    TailRefinesStream(b, max);
    KeptShape(Concat(a), max);
  }

  lemma KeptShape(stream: Bytes, max: nat)
    ensures |Kept(stream, max).0| <= max && LF !in Kept(stream, max).1
    ensures forall l :: l in Kept(stream, max).0 ==> LF !in l && !Blank(l)
  {
    JoinUndoesSplit(stream);
    var complete := Complete(stream);
    NonBlankFrom(complete);
    forall l | l in Kept(stream, max).0 ensures LF !in l && !Blank(l) {
      assert l in NonBlank(complete);
      assert l in Split(stream);
    }
  }

  lemma {:induction false} NonBlankFrom(lines: seq<Bytes>)
    ensures forall l :: l in NonBlank(lines) ==> l in lines && !Blank(l)
  {
    if lines != [] {
      NonBlankFrom(lines[..|lines| - 1]);
    }
  }

  // How many of these lines are not blank.
  ghost function Filled(lines: seq<Bytes>): nat {
    |set i | 0 <= i < |lines| && !Blank(lines[i])|
  }

  // Line i is not blank, and d lines after it are not.
  ghost predicate Follow(lines: seq<Bytes>, i: nat, d: nat) {
    i < |lines| && !Blank(lines[i]) && Filled(lines[i + 1..]) == d
  }

  // l is the line that d such lines follow.
  ghost predicate IsLine(lines: seq<Bytes>, l: Bytes, d: nat) {
    exists i: nat :: Follow(lines, i, d) && lines[i] == l
  }

  // Which lines are kept, told by their places: a complete line that is not
  // blank is kept exactly when fewer than max such lines come after it, and
  // nothing else is; the kept lines are in their order and unchanged.
  lemma KeptIff(stream: Bytes, max: nat)
    ensures var lines, kept := Complete(stream), Kept(stream, max).0;
            && |kept| == (if Filled(lines) <= max then Filled(lines) else max)
            && (forall i: nat, d: nat :: Follow(lines, i, d) && d < max ==>
                  d < |kept| && kept[|kept| - 1 - d] == lines[i])
            && forall k: nat :: k < |kept| ==> IsLine(lines, kept[k], |kept| - 1 - k)
  {
    hide Blank, Filled, NonBlank;
    var lines, kept := Complete(stream), Kept(stream, max).0;
    FilledCounts(lines);
    forall i: nat, d: nat | Follow(lines, i, d) && d < max
      ensures d < |kept| && kept[|kept| - 1 - d] == lines[i]
    {
      FollowPlace(lines, i, d);
    }
    forall k: nat | k < |kept| ensures IsLine(lines, kept[k], |kept| - 1 - k) {
      var i := FollowedBy(lines, |kept| - 1 - k);
      FollowPlace(lines, i, |kept| - 1 - k);
    }
  }

  lemma FollowPlace(lines: seq<Bytes>, i: nat, d: nat)
    requires Follow(lines, i, d)
    ensures var all := NonBlank(lines); i < |lines| && d < |all| && all[|all| - 1 - d] == lines[i]
  {
    hide Blank, Filled;
    FilledCounts(lines[i + 1..]);
    assert lines == lines[..i] + ([lines[i]] + lines[i + 1..]);
    NonBlankAppend(lines[..i], [lines[i]] + lines[i + 1..]);
    NonBlankAppend([lines[i]], lines[i + 1..]);
    assert NonBlank([lines[i]]) == [lines[i]];
  }

  lemma FilledSnoc(init: seq<Bytes>, last: Bytes)
    ensures Filled([]) == 0 && Filled(init + [last]) == Filled(init) + if Blank(last) then 0 else 1
  {
    hide Blank;
    var lines, n := init + [last], |init|;
    var before := set i | 0 <= i < n && !Blank(init[i]);
    assert (set i | 0 <= i < |lines| && !Blank(lines[i])) == before + if Blank(last) then {} else {n};
  }

  lemma {:induction false} FilledCounts(lines: seq<Bytes>)
    ensures Filled(lines) == |NonBlank(lines)|
  {
    hide Blank, Filled;
    FilledSnoc([], []);
    if lines != [] {
      var n := |lines| - 1;
      FilledCounts(lines[..n]);
      FilledSnoc(lines[..n], lines[n]);
      assert lines == lines[..n] + [lines[n]];
    }
  }

  lemma {:induction false} FollowedBy(lines: seq<Bytes>, d: nat) returns (i: nat)
    requires d < Filled(lines)
    ensures Follow(lines, i, d)
    decreases |lines|
  {
    hide Blank, Filled;
    FilledSnoc([], []);
    var n := |lines| - 1;
    FilledSnoc(lines[..n], lines[n]);
    assert lines == lines[..n] + [lines[n]];
    if d == 0 && !Blank(lines[n]) {
      i := n;
      assert lines[n + 1..] == [];
    } else {
      i := FollowedBy(lines[..n], if Blank(lines[n]) then d else d - 1);
      FilledSnoc(lines[..n][i + 1..], lines[n]);
      assert lines[i + 1..] == lines[..n][i + 1..] + [lines[n]];
    }
  }
}
