// strings.Split on a newline and strings.Join, as the build tail and the
// error pane use them.
module Lines {
  import opened ByteStrings

  // n newlines make n + 1 pieces.
  function Split(s: Bytes): (r: seq<Bytes>)
    ensures |r| >= 1
  {
    if LF !in s then [s]
    else
      var i := Newline(s);
      [s[..i]] + Split(s[i + 1..])
  }

  // Position of the first newline.
  function Newline(s: Bytes): (i: nat)
    requires LF in s
    ensures i < |s| && s[i] == LF && LF !in s[..i]
  {
    if s[0] == LF then 0
    else
      assert s == [s[0]] + s[1..];
      var i := Newline(s[1..]);
      assert s[..i + 1] == [s[0]] + s[1..][..i];
      i + 1
  }

  function Join(parts: seq<Bytes>, sep: Bytes): Bytes {
    if parts == [] then [] else if |parts| == 1 then parts[0] else parts[0] + sep + Join(parts[1..], sep)
  }

  // Splitting loses nothing but the newlines.
  lemma {:induction false} JoinUndoesSplit(s: Bytes)
    ensures Join(Split(s), [LF]) == s
    ensures forall p :: p in Split(s) ==> LF !in p
    decreases |s|
  {
    if LF in s {
      var i := Newline(s);
      JoinUndoesSplit(s[i + 1..]);
      assert s == s[..i] + [LF] + s[i + 1..];
      assert Split(s)[1..] == Split(s[i + 1..]);
    }
  }

  lemma NoNewline(s: Bytes)
    requires LF !in s
    ensures Complete(s) == [] && Rest(s) == s
  {
  }

  // And lines without newlines come back from their joining.
  lemma {:induction false} SplitUndoesJoin(parts: seq<Bytes>)
    requires parts != [] && forall p :: p in parts ==> LF !in p
    ensures Split(Join(parts, [LF])) == parts
    decreases |parts|
  {
    assert parts[0] in parts;
    if |parts| == 1 {
      assert parts == [parts[0]];
    } else {
      var first, rest := parts[0], Join(parts[1..], [LF]);
      SplitUndoesJoin(parts[1..]);
      var all := Join(parts, [LF]);
      assert all == first + ([LF] + rest);
      assert all[..|first|] == first && all[|first|] == LF && all[|first| + 1..] == rest;
      NewlineFirst(all, |first|);
      assert parts == [first] + parts[1..];
    }
  }

  // What follows the last newline, and the complete lines before it.
  function Rest(s: Bytes): Bytes {
    Split(s)[|Split(s)| - 1]
  }

  function Complete(s: Bytes): seq<Bytes> {
    Split(s)[..|Split(s)| - 1]
  }

  lemma NewlineFirst(s: Bytes, i: nat)
    requires i < |s| && s[i] == LF && LF !in s[..i]
    ensures LF in s && Newline(s) == i
  {
    var j := Newline(s);
    assert forall k :: 0 <= k < i ==> s[..i][k] == s[k];
    assert forall k :: 0 <= k < j ==> s[..j][k] == s[k];
  }

  lemma ConsInit<T>(h: T, r: seq<T>)
    requires |r| >= 1
    ensures ([h] + r)[..|r|] == [h] + r[..|r| - 1] && ([h] + r)[|r|] == r[|r| - 1]
  {
  }

  lemma SplitFirst(s: Bytes, i: nat)
    requires i < |s| && s[i] == LF && LF !in s[..i]
    ensures Split(s) == [s[..i]] + Split(s[i + 1..])
    ensures Rest(s) == Rest(s[i + 1..])
    ensures Complete(s) == [s[..i]] + Complete(s[i + 1..])
  {
    hide Newline;
    NewlineFirst(s, i);
    var r := Split(s[i + 1..]);
    assert Split(s) == [s[..i]] + r;
    ConsInit(s[..i], r);
  }

  lemma AppendSlices(s: Bytes, t: Bytes, i: nat)
    requires i < |s|
    ensures (s + t)[..i] == s[..i] && (s + t)[i] == s[i] && (s + t)[i + 1..] == s[i + 1..] + t
  {
  }

  lemma AppendOne(h: Bytes, c: seq<Bytes>, d: seq<Bytes>)
    ensures [h] + (c + d) == ([h] + c) + d
  {
  }

  lemma {:induction false} SplitAppend(s: Bytes, t: Bytes)
    ensures Split(s + t) == Complete(s) + Split(Rest(s) + t)
    decreases |s|
  {
    if LF !in s {
      assert Split(s) == [s];
      assert Complete(s) == [] && Rest(s) == s;
    } else {
      var i := Newline(s);
      AppendSlices(s, t, i);
      SplitFirst(s, i);
      SplitFirst(s + t, i);
      SplitAppend(s[i + 1..], t);
      AppendOne(s[..i], Complete(s[i + 1..]), Split(Rest(s) + t));
    }
  }
}
