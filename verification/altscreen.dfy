// The alternate-screen watch: from an output stream read in arbitrary chunks,
// and a tail of at most seven bytes, know which screen marker came last.
module AltScreen {
  import opened Options
  import opened ByteStrings

  const ENTER: seq<Bytes> := [
    [0x1B, 0x5B, 0x3F, 0x31, 0x30, 0x34, 0x39, 0x68],
    [0x1B, 0x5B, 0x3F, 0x31, 0x30, 0x34, 0x37, 0x68],
    [0x1B, 0x5B, 0x3F, 0x34, 0x37, 0x68]]
  const LEAVE: seq<Bytes> := [
    [0x1B, 0x5B, 0x3F, 0x31, 0x30, 0x34, 0x39, 0x6C],
    [0x1B, 0x5B, 0x3F, 0x31, 0x30, 0x34, 0x37, 0x6C],
    [0x1B, 0x5B, 0x3F, 0x34, 0x37, 0x6C]]
  const MAX_MARKER := 8

  // Some marker of the list occurs in s at position i.
  ghost predicate AnyAt(s: Bytes, markers: seq<Bytes>, i: int) {
    exists m :: m in markers && At(s, m, i)
  }

  ghost predicate EntersAt(s: Bytes, i: int) {
    AnyAt(s, ENTER, i)
  }

  ghost predicate LeavesAt(s: Bytes, i: int) {
    AnyAt(s, LEAVE, i)
  }

  ghost predicate Marked(s: Bytes, i: int) {
    EntersAt(s, i) || LeavesAt(s, i)
  }

  // The last marker of s is at i, an enter if k and a leave otherwise.
  ghost predicate LastAt(s: Bytes, i: int, k: bool) {
    (if k then EntersAt(s, i) else LeavesAt(s, i)) && forall j :: j > i ==> !Marked(s, j)
  }

  // k is the kind of the last marker in s, if there is one.
  ghost predicate IsLast(s: Bytes, k: Option<bool>) {
    match k
    case None => forall i :: !Marked(s, i)
    case Some(kind) => exists i :: LastAt(s, i, kind)
  }

  ghost function LastBelow(s: Bytes, n: nat): Option<bool> {
    if n == 0 then None
    else if EntersAt(s, n - 1) then Some(true)
    else if LeavesAt(s, n - 1) then Some(false)
    else LastBelow(s, n - 1)
  }

  ghost function LastMarker(s: Bytes): Option<bool> {
    LastBelow(s, |s|)
  }

  lemma {:induction false} LastBelowIs(s: Bytes, n: nat, k: Option<bool>)
    requires forall i :: i >= n ==> !Marked(s, i)
    requires IsLast(s, k)
    ensures LastBelow(s, n) == k
  {
    if n > 0 && !Marked(s, n - 1) {
      LastBelowIs(s, n - 1, k);
    } else {
      OneKind(s, n - 1);
      if k.Some? {
        var i :| LastAt(s, i, k.value);
        assert Marked(s, i) && i == n - 1;
      }
    }
  }

  // No position starts both an enter and a leave marker: byte 3 tells the
  // length apart and the last byte the kind.
  lemma OneKind(s: Bytes, i: int)
    ensures !(EntersAt(s, i) && LeavesAt(s, i))
  {
    if EntersAt(s, i) && LeavesAt(s, i) {
      var m :| m in ENTER && At(s, m, i);
      var n :| n in LEAVE && At(s, n, i);
      EnterShape(m);
      LeaveShape(n);
      AtBytes(s, m, i);
      AtBytes(s, n, i);
    }
  }

  lemma EnterShape(m: Bytes)
    requires m in ENTER
    ensures (|m| == 8 && m[3] == 0x31 && m[7] == 0x68) || (|m| == 6 && m[3] == 0x34 && m[5] == 0x68)
  {
    var k :| 0 <= k < |ENTER| && ENTER[k] == m;
    assert k == 0 || k == 1 || k == 2;
  }

  lemma LeaveShape(m: Bytes)
    requires m in LEAVE
    ensures (|m| == 8 && m[3] == 0x31 && m[7] == 0x6C) || (|m| == 6 && m[3] == 0x34 && m[5] == 0x6C)
  {
    var k :| 0 <= k < |LEAVE| && LEAVE[k] == m;
    assert k == 0 || k == 1 || k == 2;
  }

  lemma AtBytes(s: Bytes, m: Bytes, i: int)
    requires At(s, m, i)
    ensures forall k :: 0 <= k < |m| ==> s[i + k] == m[k]
  {
    assert forall k :: 0 <= k < |m| ==> s[i..i + |m|][k] == m[k];
  }

  lemma MarkersAreShort(m: Bytes)
    requires m in ENTER || m in LEAVE
    ensures |m| <= MAX_MARKER
  {
    if m in ENTER { EnterShape(m); } else { LeaveShape(m); }
  }

  // A stream's last marker is unique and LastMarker computes it.
  lemma LastMarkerIs(s: Bytes, k: Option<bool>)
    ensures IsLast(s, k) <==> LastMarker(s) == k
  {
    LastMarkerMeans(s, |s|);
    if IsLast(s, k) {
      LastBelowIs(s, |s|, k);
    }
  }

  lemma {:induction false} LastMarkerMeans(s: Bytes, n: nat)
    requires forall i :: i >= n ==> !Marked(s, i)
    ensures IsLast(s, LastBelow(s, n))
  {
    if n > 0 {
      if !Marked(s, n - 1) {
        LastMarkerMeans(s, n - 1);
      } else {
        assert LastAt(s, n - 1, EntersAt(s, n - 1));
      }
    }
  }

  lemma OneKindEverywhere(s: Bytes)
    ensures forall i :: !(EntersAt(s, i) && LeavesAt(s, i))
  {
    forall i { OneKind(s, i); }
  }

  // One of observe's two loops: the last occurrence of any listed marker
  // beyond `from`, else `from`.
  method LastOf(data: Bytes, markers: seq<Bytes>, from: int) returns (last: int)
    requires from >= -1
    ensures last == from || (last > from && AnyAt(data, markers, last))
    ensures forall i :: AnyAt(data, markers, i) ==> i <= last
  {
    last := from;
    for k := 0 to |markers|
      invariant last == from || (last > from && AnyAt(data, markers, last))
      invariant forall m, i :: m in markers[..k] && At(data, m, i) ==> i <= last
    {
      var i := LastIndexOf(data, markers[k]);
      if i > last {
        last := i;
      }
    }
  }

  class AltScreenWatch {
    var active: bool
    var tail: Bytes

    constructor ()
      ensures !active && tail == []
    {
      active, tail := false, [];
    }

    method Observe(b: Bytes)
      modifies this
      ensures (active, tail) == Observed(old(active), old(tail), b)
    {
      var data := b;
      if |tail| > 0 {
        data := tail + b;
      }
      assert data == tail + b;
      var entered := LastOf(data, ENTER, -1);
      var lastPos := LastOf(data, LEAVE, entered);
      ghost var k := if lastPos < 0 then None else Some(lastPos == entered);
      OneKindEverywhere(data);
      assert k == None ==> forall i :: Marked(data, i) ==> i <= -1;
      assert k.Some? ==> LastAt(data, lastPos, k.value);
      LastMarkerIs(data, k);
      if lastPos >= 0 {
        active := lastPos == entered;
      }
      var keep := MAX_MARKER - 1;
      if |data| > keep {
        tail := data[|data| - keep..];
      } else {
        tail := data;
      }
    }
  }

  // One call's effect: the last marker of tail-plus-chunk wins.
  ghost function Observed(active: bool, tail: Bytes, b: Bytes): (bool, Bytes) {
    var data := tail + b;
    (match LastMarker(data) case Some(k) => k case None => active, TakeLast(data, MAX_MARKER - 1))
  }

  ghost function ObservedAll(chunks: seq<Bytes>): (bool, Bytes) {
    if chunks == [] then (false, [])
    else
      var before := ObservedAll(chunks[..|chunks| - 1]);
      Observed(before.0, before.1, chunks[|chunks| - 1])
  }

  lemma AtShift(pre: Bytes, s: Bytes, m: Bytes, i: int)
    ensures i >= 0 ==> (At(s, m, i) <==> At(pre + s, m, i + |pre|))
  {
    if i >= 0 && i + |m| <= |s| {
      assert (pre + s)[i + |pre|..i + |pre| + |m|] == s[i..i + |m|];
    }
  }

  lemma AtPrefix(s: Bytes, t: Bytes, m: Bytes, i: int)
    requires i + |m| <= |s|
    ensures At(s, m, i) <==> At(s + t, m, i)
  {
    if 0 <= i {
      assert (s + t)[i..i + |m|] == s[i..i + |m|];
    }
  }

  lemma KindShift(pre: Bytes, s: Bytes, i: int)
    requires i >= 0
    ensures EntersAt(s, i) <==> EntersAt(pre + s, i + |pre|)
    ensures LeavesAt(s, i) <==> LeavesAt(pre + s, i + |pre|)
  {
    forall m: Bytes ensures At(s, m, i) <==> At(pre + s, m, i + |pre|) {
      AtShift(pre, s, m, i);
    }
  }

  lemma KindPrefix(s: Bytes, t: Bytes, i: int)
    requires i + MAX_MARKER <= |s|
    ensures EntersAt(s, i) <==> EntersAt(s + t, i)
    ensures LeavesAt(s, i) <==> LeavesAt(s + t, i)
  {
    forall m | m in ENTER || m in LEAVE ensures At(s, m, i) <==> At(s + t, m, i) {
      MarkersAreShort(m);
      AtPrefix(s, t, m, i);
    }
  }

  // The seam: with all but seven bytes of the stream so far forgotten, a
  // marker that starts in the forgotten part has already been seen whole.
  lemma LastAcrossSeam(gone: Bytes, tail: Bytes, b: Bytes)
    requires |tail| == MAX_MARKER - 1 || gone == []
    ensures LastMarker(gone + tail + b)
      == match LastMarker(tail + b) case Some(k) => Some(k) case None => LastMarker(gone + tail)
  {
    assert gone + tail + b == gone + (tail + b);
    LastMarkerIs(tail + b, LastMarker(tail + b));
    if LastMarker(tail + b).Some? {
      SeamNew(gone, tail + b, LastMarker(tail + b).value);
    } else {
      SeamOld(gone, tail, b);
    }
  }

  lemma MarkedInside(s: Bytes, i: int)
    ensures Marked(s, i) ==> 0 <= i <= |s|
  {
  }

  lemma SeamNew(gone: Bytes, data: Bytes, k: bool)
    requires IsLast(data, Some(k))
    ensures LastMarker(gone + data) == Some(k)
  {
    hide AnyAt, LastBelow, LastMarker;
    var i :| LastAt(data, i, k);
    MarkedInside(data, i);
    KindShift(gone, data, i);
    forall j | j > i + |gone| ensures !Marked(gone + data, j) {
      KindShift(gone, data, j - |gone|);
      assert !Marked(data, j - |gone|);
    }
    assert LastAt(gone + data, i + |gone|, k);
    LastMarkerIs(gone + data, Some(k));
  }

  lemma SeamOld(gone: Bytes, tail: Bytes, b: Bytes)
    requires |tail| == MAX_MARKER - 1 || gone == []
    requires IsLast(tail + b, None)
    ensures LastMarker(gone + tail + b) == LastMarker(gone + tail)
  {
    var whole, was := gone + tail + b, gone + tail;
    assert whole == gone + (tail + b);
    forall i
      ensures EntersAt(whole, i) <==> EntersAt(was, i)
      ensures LeavesAt(whole, i) <==> LeavesAt(was, i)
    {
      if 0 <= i < |gone| {
        KindPrefix(was, b, i);
      } else if |gone| <= i {
        KindShift(gone, tail + b, i - |gone|);
        assert !Marked(tail + b, i - |gone|);
        OldInWhole(was, b, i);
      }
    }
    LastMarkerIs(was, LastMarker(was));
    assert forall i :: Marked(whole, i) <==> Marked(was, i);
    if LastMarker(was).Some? {
      var i :| LastAt(was, i, LastMarker(was).value);
      assert LastAt(whole, i, LastMarker(was).value);
    }
    LastMarkerIs(whole, LastMarker(was));
  }

  lemma OldInWhole(s: Bytes, t: Bytes, i: int)
    ensures EntersAt(s, i) ==> EntersAt(s + t, i)
    ensures LeavesAt(s, i) ==> LeavesAt(s + t, i)
  {
    forall m: Bytes | At(s, m, i) ensures At(s + t, m, i) {
      AtPrefix(s, t, m, i);
    }
  }

  // However the stream was cut into chunks, the watch is active exactly when
  // the last marker of the whole stream is an enter, and the tail is its last
  // seven bytes.
  lemma {:induction false} WatchRefinesStream(chunks: seq<Bytes>)
    ensures var stream := Concat(chunks);
            ObservedAll(chunks) == (LastMarker(stream) == Some(true), TakeLast(stream, MAX_MARKER - 1))
  {
    if chunks != [] {
      var before, b := chunks[..|chunks| - 1], chunks[|chunks| - 1];
      WatchRefinesStream(before);
      var stream := Concat(before);
      var tail := TakeLast(stream, MAX_MARKER - 1);
      var gone := stream[..|stream| - |tail|];
      assert stream == gone + tail && stream + b == gone + tail + b;
      LastAcrossSeam(gone, tail, b);
      TakeLastAppend(stream, b, MAX_MARKER - 1);
    }
  }
}
