// The attach minibuffer: a raw-mode line editor fed by stdin chunks.
module Attach {
  import opened ByteStrings
  import opened PasteScanner

  const ESC: byte := 0x1B
  const CTRL_C: byte := 0x03
  const BACKSPACE: byte := 0x7F
  const CTRL_H: byte := 0x08
  const CTRL_U: byte := 0x15

  // strings.ReplaceAll with an empty replacement.
  function RemoveAll(s: Bytes, m: Bytes): Bytes
    requires m != []
    decreases |s|
  {
    var i := IndexOf(s, m);
    if i < 0 then s else s[..i] + RemoveAll(s[i + |m|..], m)
  }

  // stripBracketedPaste
  function Strip(b: Bytes): Bytes {
    RemoveAll(RemoveAll(b, BP_START), BP_END)
  }

  datatype Edited = Editing(buf: Bytes) | Submitted(line: Bytes) | Cancelled

  // Editing a line byte by byte, starting from `buf`.
  function Edit(buf: Bytes, b: Bytes): Edited
    decreases |b|
  {
    if b == [] then Editing(buf)
    else
      var c := b[0];
      if c == ESC || c == CTRL_C then Cancelled
      else if c == CR || c == LF then Submitted(buf)
      else if c == BACKSPACE || c == CTRL_H then Edit(if buf == [] then [] else buf[..|buf| - 1], b[1..])
      else if c == CTRL_U then Edit([], b[1..])
      else if c >= 0x20 then Edit(buf + [c], b[1..])
      else Edit(buf, b[1..])
  }

  class AttachState {
    var buf: Bytes

    constructor ()
      ensures buf == []
    {
      buf := [];
    }

    method Feed(chunk: Bytes) returns (done: bool, cancelled: bool, path: Bytes)
      modifies this
      ensures var e := Edit(old(buf), Strip(chunk));
              && done == e.Submitted? && cancelled == e.Cancelled?
              && path == (if e.Submitted? then e.line else [])
              && (e.Editing? ==> buf == e.buf)
    {
      var b := Strip(chunk);
      for i := 0 to |b|
        invariant Edit(old(buf), b) == Edit(buf, b[i..])
      {
        var c := b[i];
        assert b[i..][0] == c && b[i..][1..] == b[i + 1..];
        if c == ESC || c == CTRL_C {
          return false, true, [];
        } else if c == CR || c == LF {
          return true, false, buf;
        } else if c == BACKSPACE || c == CTRL_H {
          if |buf| > 0 {
            buf := buf[..|buf| - 1];
          }
        } else if c == CTRL_U {
          buf := [];
        } else if c >= 0x20 {
          buf := buf + [c];
        }
      }
      return false, false, [];
    }
  }

  // Where one chunk ends and the next begins does not matter to the editor.
  lemma {:induction false} EditAppend(buf: Bytes, a: Bytes, b: Bytes)
    ensures Edit(buf, a + b) == match Edit(buf, a) case Editing(x) => Edit(x, b) case e => e
    decreases |a|
  {
    if a == [] {
      assert a + b == b;
    } else {
      assert (a + b)[0] == a[0] && (a + b)[1..] == a[1..] + b;
      var c := a[0];
      if c == BACKSPACE || c == CTRL_H {
        EditAppend(if buf == [] then [] else buf[..|buf| - 1], a[1..], b);
      } else if c == CTRL_U {
        EditAppend([], a[1..], b);
      } else if c >= 0x20 {
        EditAppend(buf + [c], a[1..], b);
      } else {
        EditAppend(buf, a[1..], b);
      }
    }
  }

  // -------------------------------------------------- the line, read afterwards

  predicate Ends(c: byte) {
    c == ESC || c == CTRL_C || c == CR || c == LF
  }

  // The first byte of t that ends a line is the one at n.
  predicate EndsAt(t: Bytes, n: nat) {
    n < |t| && Ends(t[n]) && forall k :: 0 <= k < n ==> !Ends(t[k])
  }

  predicate Open(t: Bytes) {
    forall k :: 0 <= k < |t| ==> !Ends(t[k])
  }

  // An Enter comes first, or an Esc or a Ctrl-C does.
  predicate EnterAt(t: Bytes, n: nat) {
    EndsAt(t, n) && (t[n] == CR || t[n] == LF)
  }

  predicate CancelAt(t: Bytes, n: nat) {
    EndsAt(t, n) && (t[n] == ESC || t[n] == CTRL_C)
  }

  // What is left of the printable bytes of t when it is read from its end,
  // with `erase` of them still to be taken back: an erase takes the nearest
  // one before it that no other erase has taken, a clear all of them.
  function Kept(t: Bytes, erase: nat): Bytes
    decreases |t|
  {
    if t == [] then []
    else
      var init, c := t[..|t| - 1], t[|t| - 1];
      if c == CTRL_U then []
      else if c == BACKSPACE || c == CTRL_H then Kept(init, erase + 1)
      else if c < 0x20 then Kept(init, erase)
      else if erase > 0 then Kept(init, erase - 1)
      else Kept(init, 0) + [c]
  }

  // What the editor makes of everything typed: an Enter that comes before any
  // Esc and Ctrl-C submits what is left of the bytes before it, an Esc or a
  // Ctrl-C that comes before any Enter cancels, and without either the line is
  // still open.
  lemma EditMeans(t: Bytes)
    ensures forall n: nat :: EnterAt(t, n) ==> Edit([], t) == Submitted(Kept(t[..n], 0))
    ensures forall n: nat :: CancelAt(t, n) ==> Edit([], t) == Cancelled
    ensures Open(t) ==> Edit([], t) == Editing(Kept(t, 0))
    ensures Open(t) || exists n: nat :: EndsAt(t, n)
  {
    if Open(t) {
      OpenLineKept(t);
    } else {
      var n := FirstEnd(t);
    }
    forall n: nat | EndsAt(t, n)
      ensures Edit([], t) == if EnterAt(t, n) then Submitted(Kept(t[..n], 0)) else Cancelled
    {
      OpenLineKept(t[..n]);
      assert t == t[..n] + t[n..] && t[n..][0] == t[n];
      EditAppend([], t[..n], t[n..]);
    }
  }

  lemma {:induction false} FirstEnd(t: Bytes) returns (n: nat)
    requires !Open(t)
    ensures EndsAt(t, n)
    decreases |t|
  {
    var init := t[..|t| - 1];
    if Open(init) {
      n := |t| - 1;
      assert forall k :: 0 <= k < n ==> t[k] == init[k];
    } else {
      n := FirstEnd(init);
    }
  }

  // Without its last n bytes.
  function Less(x: Bytes, n: nat): Bytes {
    if n < |x| then x[..|x| - n] else []
  }

  lemma OpenLineKept(t: Bytes)
    requires Open(t)
    ensures Edit([], t) == Editing(Kept(t, 0))
  {
    var x := KeptIsLess(t, 0);
    assert Less(x, 0) == x;
  }

  lemma {:induction false} KeptIsLess(t: Bytes, erase: nat) returns (x: Bytes)
    requires Open(t)
    ensures Edit([], t) == Editing(x) && Kept(t, erase) == Less(x, erase)
    decreases |t|
  {
    hide Edit;
    if t == [] {
      x := [];
      NothingTyped([]);
    } else {
      var init, c := t[..|t| - 1], t[|t| - 1];
      assert t == init + [c] && forall k :: 0 <= k < |init| ==> init[k] == t[k];
      EditAppend([], init, [c]);
      var was := KeptIsLess(init, if c == BACKSPACE || c == CTRL_H then erase + 1
                                  else if c >= 0x20 && erase > 0 then erase - 1 else erase);
      OneTyped(was, c);
      x := Typed(was, c);
      LessOf(was, c, erase);
    }
  }

  // One more byte that ends no line.
  function Typed(x: Bytes, c: byte): Bytes {
    if c == CTRL_U then []
    else if c == BACKSPACE || c == CTRL_H then Less(x, 1)
    else if c >= 0x20 then x + [c]
    else x
  }

  lemma NothingTyped(x: Bytes)
    ensures Edit(x, []) == Editing(x)
  {
  }

  lemma OneTyped(x: Bytes, c: byte)
    requires !Ends(c)
    ensures Edit(x, [c]) == Editing(Typed(x, c))
  {
    assert [c][1..] == [];
    NothingTyped(Typed(x, c));
  }

  lemma LessOf(x: Bytes, c: byte, n: nat)
    requires !Ends(c)
    ensures Less(Typed(x, c), n) ==
      if c == CTRL_U then []
      else if c == BACKSPACE || c == CTRL_H then Less(x, n + 1)
      else if c < 0x20 then Less(x, n)
      else if n > 0 then Less(x, n - 1)
      else Less(x, 0) + [c]
  {
  }

  // ---------------------------------------------------------- paste markers

  // Pieces of input: bytes without an escape, and the two paste markers.
  datatype Piece = Text(bytes: Bytes) | Begins | Finishes {
    function Bytes(): Bytes {
      match this case Text(b) => b case Begins => BP_START case Finishes => BP_END
    }
  }

  function All(pieces: seq<Piece>): Bytes {
    if pieces == [] then [] else pieces[0].Bytes() + All(pieces[1..])
  }

  function Without(pieces: seq<Piece>, p: Piece): seq<Piece> {
    if pieces == [] then [] else (if pieces[0] == p then [] else [pieces[0]]) + Without(pieces[1..], p)
  }

  ghost predicate NoEscape(pieces: seq<Piece>) {
    forall p :: p in pieces ==> p.Text? ==> ESC !in p.bytes
  }

  // Stripping takes out the markers, wherever they stand, and nothing else.
  lemma StripTakesMarkers(pieces: seq<Piece>)
    requires NoEscape(pieces)
    ensures Strip(All(pieces)) == All(Without(Without(pieces, Begins), Finishes))
  {
    WithoutKeeps(pieces, Begins);
    RemoveMarker(pieces, Begins);
    RemoveMarker(Without(pieces, Begins), Finishes);
  }

  lemma {:induction false} WithoutKeeps(pieces: seq<Piece>, p: Piece)
    ensures forall q :: q in Without(pieces, p) <==> q in pieces && q != p
  {
    if pieces != [] {
      WithoutKeeps(pieces[1..], p);
      assert pieces == [pieces[0]] + pieces[1..];
    }
  }

  lemma {:induction false} RemoveMarker(pieces: seq<Piece>, m: Piece)
    requires NoEscape(pieces) && !m.Text?
    ensures RemoveAll(All(pieces), m.Bytes()) == All(Without(pieces, m))
    decreases |pieces|
  {
    if pieces != [] {
      var p, rest := pieces[0], All(pieces[1..]);
      RemoveMarker(pieces[1..], m);
      assert p in pieces && forall q :: q in pieces[1..] ==> q in pieces;
      if p == m {
        assert (p.Bytes() + rest)[0..6] == m.Bytes();
        assert At(p.Bytes() + rest, m.Bytes(), 0);
        assert (p.Bytes() + rest)[6..] == rest && [] + RemoveAll(rest, m.Bytes()) == RemoveAll(rest, m.Bytes());
        assert Without(pieces, m) == Without(pieces[1..], m);
      } else {
        forall i | 0 <= i < |p.Bytes()| ensures !At(p.Bytes() + rest, m.Bytes(), i) {
          NoMarkerInside(p, rest, m, i);
        }
        RemovePast(p.Bytes(), rest, m.Bytes());
        assert Without(pieces, m) == [p] + Without(pieces[1..], m);
        assert ([p] + Without(pieces[1..], m))[1..] == Without(pieces[1..], m);
      }
    }
  }

  lemma NoMarkerInside(p: Piece, rest: Bytes, m: Piece, i: nat)
    requires !m.Text? && p != m && (p.Text? ==> ESC !in p.bytes) && i < |p.Bytes()|
    ensures !At(p.Bytes() + rest, m.Bytes(), i)
  {
    var s := p.Bytes() + rest;
    if i + 6 <= |s| {
      assert s[i..i + 6][0] == s[i] == p.Bytes()[i];
      assert i == 0 && !p.Text? ==> s[i..i + 6][4] == s[4] == p.Bytes()[4];
    }
  }

  lemma RemovePast(u: Bytes, s: Bytes, m: Bytes)
    requires m != [] && forall i :: 0 <= i < |u| ==> !At(u + s, m, i)
    ensures RemoveAll(u + s, m) == u + RemoveAll(s, m)
  {
    hide At, RemoveAll;
    var i, j := IndexOf(u + s, m), IndexOf(s, m);
    forall k | k >= |u| ensures At(u + s, m, k) <==> At(s, m, k - |u|) {
      AtShift(u, s, m, k);
    }
    assert i >= 0 ==> At(s, m, i - |u|);
    RemoveFirst(u + s, m);
    RemoveFirst(s, m);
    if j >= 0 {
      assert At(u + s, m, j + |u|) && i == j + |u|;
      Shifted(u, s, m, j);
      assert u + s[..j] + RemoveAll(s[j + |m|..], m) == u + (s[..j] + RemoveAll(s[j + |m|..], m));
    }
  }

  lemma RemoveFirst(s: Bytes, m: Bytes)
    requires m != []
    ensures var i := IndexOf(s, m);
            if i < 0 then RemoveAll(s, m) == s
            else i + |m| <= |s| && RemoveAll(s, m) == s[..i] + RemoveAll(s[i + |m|..], m)
  {
  }

  lemma AtShift(u: Bytes, s: Bytes, m: Bytes, k: int)
    requires k >= |u|
    ensures At(u + s, m, k) <==> At(s, m, k - |u|)
  {
    if k + |m| <= |u + s| {
      assert (u + s)[k..k + |m|] == s[k - |u|..k - |u| + |m|];
    }
  }

  lemma Shifted(u: Bytes, s: Bytes, m: Bytes, j: nat)
    requires At(s, m, j)
    ensures j + |m| <= |s|
    ensures (u + s)[..j + |u|] == u + s[..j] && (u + s)[j + |u| + |m|..] == s[j + |m|..]
  {
  }

  predicate Printable(p: Bytes) {
    forall c :: c in p ==> c >= 0x20 && c != BACKSPACE
  }

  lemma {:induction false} PrintableIsKept(buf: Bytes, p: Bytes)
    requires Printable(p)
    ensures Edit(buf, p) == Editing(buf + p)
    decreases |p|
  {
    if p == [] {
      assert buf + p == buf;
    } else {
      assert p[0] in p && forall c :: c in p[1..] ==> c in p;
      PrintableIsKept(buf + [p[0]], p[1..]);
      assert buf + [p[0]] + p[1..] == buf + p;
    }
  }

  // A path pasted into the minibuffer and entered is submitted as it is,
  // whatever markers the terminal wrapped it in.
  lemma PastedPathSubmitted(p: Bytes)
    requires Printable(p)
    ensures Edit([], Strip(BP_START + p + BP_END + [CR])) == Submitted(p)
  {
    var pieces := [Begins, Text(p), Finishes, Text([CR])];
    FourPieces(p);
    StripTakesMarkers(pieces);
    PrintableIsKept([], p);
    EditAppend([], p, [CR]);
    assert [] + p == p;
  }

  lemma FourPieces(p: Bytes)
    ensures var pieces := [Begins, Text(p), Finishes, Text([CR])];
            && All(pieces) == BP_START + p + BP_END + [CR]
            && All(Without(Without(pieces, Begins), Finishes)) == p + [CR]
  {
    hide All, Without, Piece.Bytes;
    var c := [Text([CR])];
    var b, a := [Finishes] + c, [Text(p)] + ([Finishes] + c);
    WithoutCons(Text([CR]), []);
    WithoutCons(Finishes, c);
    WithoutCons(Text(p), b);
    WithoutCons(Text(p), c);
    WithoutCons(Begins, a);
    assert [Begins] + a == [Begins, Text(p), Finishes, Text([CR])] && c + [] == c;
    assert Without(a, Begins) == a && Without(c, Finishes) == c;
    assert [] + a == a && [] + c == c && Without(a, Finishes) == [Text(p)] + c;
    PieceBytes(p);
    assert [CR] + [] == [CR];
    AllOfThem(p);
  }

  lemma WithoutCons(p: Piece, rest: seq<Piece>)
    ensures forall m :: Without([p] + rest, m) == (if p == m then [] else [p]) + Without(rest, m)
    ensures All([p] + rest) == p.Bytes() + All(rest) && Without([], p) == [] && All([]) == []
  {
    assert ([p] + rest)[1..] == rest;
  }

  lemma AllOfThem(p: Bytes)
    ensures BP_START + (p + (BP_END + [CR])) == BP_START + p + BP_END + [CR]
  {
  }

  lemma PieceBytes(p: Bytes)
    ensures Begins.Bytes() == BP_START && Finishes.Bytes() == BP_END
    ensures Text(p).Bytes() == p && Text([CR]).Bytes() == [CR]
  {
  }
}
