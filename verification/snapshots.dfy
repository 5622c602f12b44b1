// Which home-snapshot volumes belong to an island that is gone.
module Snapshots {
  import opened Options
  import opened ByteStrings
  import opened Texts

  const PREFIX := "dejima-"
  const MARKER := "-home-snap-"

  // An island's own volumes, "home" and "workspace".
  function Volume(island: string, tail: string): string {
    PREFIX + island + "-" + tail
  }

  function HomeVolume(island: string): string {
    Volume(island, "home")
  }

  function SnapshotVolume(island: string, stamp: string): string {
    PREFIX + island + MARKER + stamp
  }

  // strings.TrimSpace
  function Trim(s: string): string {
    TrimWhere(c => IsWhite(c), s)
  }

  // islandFromSnapshotVolume: cut the prefix, then at the last marker.
  function Island(v: string): Option<string> {
    if !(PREFIX <= v) then None
    else
      var rest := v[|PREFIX|..];
      var i := LastIndexOf(rest, MARKER);
      if i <= 0 then None else Some(rest[..i])
  }

  datatype Class = Unparsed | Live | Orphan

  function ClassOf(have: set<string>, snap: string): Class {
    match Island(snap)
    case None => Unparsed
    case Some(island) => if HomeVolume(island) in have then Live else Orphan
  }

  // The listed names, trimmed, blanks dropped.
  function Names(lines: seq<string>): seq<string> {
    if lines == [] then []
    else
      var n := Trim(lines[|lines| - 1]);
      Names(lines[..|lines| - 1]) + (if n == [] then [] else [n])
  }

  function SetOf(names: seq<string>): set<string> {
    set n | n in names
  }

  function Marked(names: seq<string>): seq<string> {
    if names == [] then []
    else
      var n := names[|names| - 1];
      Marked(names[..|names| - 1]) + (if Contains(n, MARKER) then [n] else [])
  }

  function OfClass(have: set<string>, snaps: seq<string>, c: Class): seq<string> {
    if snaps == [] then []
    else
      var s := snaps[|snaps| - 1];
      OfClass(have, snaps[..|snaps| - 1], c) + (if ClassOf(have, s) == c then [s] else [])
  }

  method ClassifySnapshotVolumes(lines: seq<string>) returns (orphans: seq<string>, live: nat)
    ensures var names := Names(lines);
            var have, snaps := SetOf(names), Marked(names);
            orphans == OfClass(have, snaps, Orphan) && live == |OfClass(have, snaps, Live)|
  {
    var have, snaps := Collect(lines);
    orphans, live := Sort(have, snaps);
  }

  // Its first loop: every volume there is, and those that look like snapshots.
  method Collect(lines: seq<string>) returns (have: set<string>, snaps: seq<string>)
    ensures have == SetOf(Names(lines)) && snaps == Marked(Names(lines))
  {
    have, snaps := {}, [];
    ghost var names: seq<string> := [];
    for i := 0 to |lines|
      invariant names == Names(lines[..i]) && have == SetOf(names) && snaps == Marked(names)
    {
      NamesNext(lines, i);
      var n := Trim(lines[i]);
      if n == [] {
        continue;
      }
      MarkedNext(names, n);
      SetNext(names, n);
      names := names + [n];
      have := have + {n};
      if Contains(n, MARKER) {
        snaps := snaps + [n];
      }
    }
    assert lines[..|lines|] == lines;
  }

  lemma SetNext(names: seq<string>, n: string)
    ensures SetOf(names + [n]) == SetOf(names) + {n}
  {
  }

  // Its second loop: look each snapshot's island up.
  method Sort(have: set<string>, snaps: seq<string>) returns (orphans: seq<string>, live: nat)
    ensures orphans == OfClass(have, snaps, Orphan) && live == |OfClass(have, snaps, Live)|
  {
    orphans, live := [], 0;
    for i := 0 to |snaps|
      invariant orphans == OfClass(have, snaps[..i], Orphan) && live == |OfClass(have, snaps[..i], Live)|
    {
      assert snaps[..i + 1][..i] == snaps[..i];
      match Island(snaps[i]) {
        case None =>
        case Some(island) =>
          if HomeVolume(island) in have {
            live := live + 1;
          } else {
            orphans := orphans + [snaps[i]];
          }
      }
    }
    assert snaps[..|snaps|] == snaps;
  }

  lemma NamesNext(lines: seq<string>, i: nat)
    requires i < |lines|
    ensures var n := Trim(lines[i]);
            Names(lines[..i + 1]) == if n == [] then Names(lines[..i]) else Names(lines[..i]) + [n]
  {
    assert lines[..i + 1][..i] == lines[..i];
    assert Names(lines[..i]) + [] == Names(lines[..i]);
  }

  lemma MarkedNext(names: seq<string>, n: string)
    ensures Marked(names + [n]) == if Contains(n, MARKER) then Marked(names) + [n] else Marked(names)
  {
    assert (names + [n])[..|names|] == names;
    assert Marked(names) + [] == Marked(names);
  }

  // The names taken: what is left of the lines that are not blank.
  lemma {:induction false} NamesHold(lines: seq<string>)
    ensures forall n :: n in Names(lines) <==> n != [] && exists l :: l in lines && Trim(l) == n
    decreases |lines|
  {
    hide Trim;
    if lines != [] {
      var init, last := lines[..|lines| - 1], lines[|lines| - 1];
      NamesHold(init);
      assert lines == init + [last];
      forall n ensures n in Names(lines) <==> n != [] && exists l :: l in lines && Trim(l) == n {
        assert last in lines && forall l :: l in lines <==> l in init || l == last;
      }
    }
  }

  // Every name with a marker is counted once: live, orphaned or unparsable.
  lemma {:induction false} ClassesPartition(have: set<string>, snaps: seq<string>)
    ensures |OfClass(have, snaps, Orphan)| + |OfClass(have, snaps, Live)| + |OfClass(have, snaps, Unparsed)| == |snaps|
    decreases |snaps|
  {
    if snaps != [] {
      ClassesPartition(have, snaps[..|snaps| - 1]);
      var c := ClassOf(have, snaps[|snaps| - 1]);
      assert c == Orphan || c == Live || c == Unparsed;
    }
  }

  lemma {:induction false} OfClassHolds(have: set<string>, snaps: seq<string>, c: Class)
    ensures forall s :: s in OfClass(have, snaps, c) <==> s in snaps && ClassOf(have, s) == c
    decreases |snaps|
  {
    if snaps != [] {
      OfClassHolds(have, snaps[..|snaps| - 1], c);
      assert snaps == snaps[..|snaps| - 1] + [snaps[|snaps| - 1]];
    }
  }

  lemma {:induction false} MarkedHolds(names: seq<string>)
    ensures forall n :: n in Marked(names) <==> n in names && Contains(n, MARKER)
    decreases |names|
  {
    if names != [] {
      MarkedHolds(names[..|names| - 1]);
      assert names == names[..|names| - 1] + [names[|names| - 1]];
    }
  }

  // ------------------------------------------------------------- round trip

  // Whatever follows the marker, the island comes back exactly when no later
  // marker starts inside it or what follows.
  lemma IslandBackIff(island: string, tail: string)
    requires island != []
    ensures Island(PREFIX + island + MARKER + tail) == Some(island)
        <==> forall i :: i > 0 ==> !At(MARKER + tail, MARKER, i)
  {
    var v, rest := PREFIX + island + MARKER + tail, island + (MARKER + tail);
    assert v == PREFIX + rest && v[|PREFIX|..] == rest;
    var last := LastIndexOf(rest, MARKER);
    assert rest[|island|..|island| + |MARKER|] == MARKER;
    assert At(rest, MARKER, |island|) && last >= |island|;
    forall i | i >= 0 ensures At(MARKER + tail, MARKER, i) <==> At(rest, MARKER, i + |island|) {
      if i + |MARKER| <= |MARKER + tail| {
        assert rest[i + |island|..i + |island| + |MARKER|] == (MARKER + tail)[i..i + |MARKER|];
      }
    }
    assert At(MARKER + tail, MARKER, last - |island|);
    if last == |island| {
      assert rest[..last] == island;
    } else {
      assert |rest[..last]| != |island|;
    }
  }

  predicate Digits(s: string) {
    forall i :: 0 <= i < |s| ==> '0' <= s[i] <= '9'
  }

  // The marker overlaps itself, but a digit stamp never completes a second one.
  lemma NoLaterMarker(stamp: string, i: int)
    requires Digits(stamp) && i > 0
    ensures !At(MARKER + stamp, MARKER, i)
  {
    var s := MARKER + stamp;
    if i + |MARKER| <= |s| {
      assert s[i..i + |MARKER|][0] == s[i] && s[i..i + |MARKER|][1] == s[i + 1];
      if i < |MARKER| {
        assert s[i] == MARKER[i];
        MarkerDashes(i);
        assert i == |MARKER| - 1 ==> '0' <= s[i + 1] <= '9';
        assert i < |MARKER| - 1 ==> s[i + 1] == MARKER[i + 1];
      } else {
        assert s[i] == stamp[i - |MARKER|];
      }
    }
  }

  // Inside the marker a dash is followed by 'h' only at its start.
  lemma MarkerDashes(i: int)
    requires 0 < i < |MARKER|
    ensures MARKER[i] != '-' || i == |MARKER| - 1 || MARKER[i + 1] != 'h'
  {
  }

  // For every island name, ones ending in "-home" or holding the marker
  // included, the snapshot's name gives the island back.
  lemma SnapshotNameRoundTrips(island: string, stamp: string)
    requires island != [] && Digits(stamp)
    ensures Island(SnapshotVolume(island, stamp)) == Some(island)
  {
    forall i: int | i > 0 ensures !At(MARKER + stamp, MARKER, i) {
      NoLaterMarker(stamp, i);
    }
    IslandBackIff(island, stamp);
  }

  // So a listed snapshot of an island is reported as an orphan exactly when
  // the island's home volume is not listed.
  lemma SnapshotOrphanIff(lines: seq<string>, island: string, stamp: string)
    requires island != [] && Digits(stamp) && SnapshotVolume(island, stamp) in Names(lines)
    ensures var names := Names(lines);
            (SnapshotVolume(island, stamp) in OfClass(SetOf(names), Marked(names), Orphan))
              <==> HomeVolume(island) !in names
  {
    var names, v := Names(lines), SnapshotVolume(island, stamp);
    SnapshotNameRoundTrips(island, stamp);
    OfClassHolds(SetOf(names), Marked(names), Orphan);
    MarkedHolds(names);
    var i := |PREFIX + island|;
    assert v == PREFIX + island + MARKER + stamp;
    assert v[i..i + |MARKER|] == MARKER;
    assert At(v, MARKER, i);
  }

  // ------------------------------------------------ a volume taken for a snapshot

  predicate IsVolumeTail(tail: string) {
    tail == "home" || tail == "workspace"
  }

  // The island such a volume would be a snapshot of: what precedes the last
  // marker that starts, past the first character, in the name and a dash.
  function ReadAs(island: string): (r: Option<string>)
    ensures r.Some? ==> r.value <= island
  {
    var p := LastIndexOf(island + "-", MARKER);
    if p > 0 then Some(island[..p]) else None
  }

  lemma MarkerInVolume(island: string, tail: string, p: int)
    requires '-' !in tail
    ensures At(island + "-" + tail, MARKER, p) <==> At(island + "-", MARKER, p)
  {
    var rest, short := island + "-" + tail, island + "-";
    assert rest[..|short|] == short;
    if 0 <= p && p + |MARKER| <= |short| {
      assert rest[p..p + |MARKER|] == short[p..p + |MARKER|];
    } else if 0 <= p && p + |MARKER| <= |rest| {
      var k := p + |MARKER| - 1;
      assert rest[p..p + |MARKER|][|MARKER| - 1] == rest[k];
      assert rest[k] == tail[k - |short|];
      assert tail[k - |short|] in tail;
    }
  }

  lemma VolumeRead(island: string, tail: string)
    requires '-' !in tail
    ensures Island(Volume(island, tail)) == ReadAs(island)
  {
    var v, rest := Volume(island, tail), island + "-" + tail;
    assert v == PREFIX + rest && v[|PREFIX|..] == rest;
    forall p ensures At(rest, MARKER, p) <==> At(island + "-", MARKER, p) {
      MarkerInVolume(island, tail, p);
    }
    var last := LastIndexOf(rest, MARKER);
    assert last == LastIndexOf(island + "-", MARKER);
    if last > 0 {
      assert rest[..last] == island[..last];
    }
  }

  lemma TailsHaveNoDash()
    ensures '-' !in "home" && '-' !in "workspace"
  {
  }

  // "Only snapshots are listed for deletion" is false. A home or workspace
  // volume is listed exactly when its island's name holds a marker in that
  // sense and the island before the marker has no home volume of its own.
  lemma VolumeCalledOrphanIff(lines: seq<string>, island: string, tail: string)
    requires IsVolumeTail(tail) && Volume(island, tail) in Names(lines)
    ensures var names := Names(lines);
            (Volume(island, tail) in OfClass(SetOf(names), Marked(names), Orphan))
              <==> ReadAs(island).Some? && HomeVolume(ReadAs(island).value) !in names
  {
    hide OfClass, Marked, ReadAs, Volume, HomeVolume, Island;
    var names, v := Names(lines), Volume(island, tail);
    TailsHaveNoDash();
    VolumeRead(island, tail);
    OfClassHolds(SetOf(names), Marked(names), Orphan);
    MarkedHolds(names);
    if Island(v).Some? {
      ParsedHasMarker(v);
    }
  }

  lemma ParsedHasMarker(v: string)
    requires Island(v).Some?
    ensures Contains(v, MARKER)
  {
    var rest := v[|PREFIX|..];
    var i := LastIndexOf(rest, MARKER);
    assert v == PREFIX + rest;
    assert v[i + |PREFIX|..i + |PREFIX| + |MARKER|] == rest[i..i + |MARKER|];
    assert At(v, MARKER, i + |PREFIX|);
  }

  // The island name "a-home-snap-b" is allowed: with its two volumes the only
  // ones listed, the check names both of them, live, as those to delete.
  lemma LiveVolumesCalledOrphan()
    ensures var lines := [Volume("a" + MARKER + "b", "home"), Volume("a" + MARKER + "b", "workspace")];
            var names := Names(lines);
            names == lines && OfClass(SetOf(names), Marked(names), Orphan) == lines
  {
    hide Island, HomeVolume, ClassOf, Names, Marked, OfClass;
    var island := "a" + MARKER + "b";
    var home, work := Volume(island, "home"), Volume(island, "workspace");
    TailsHaveNoDash();
    ReadAsA();
    VolumeRead(island, "home");
    VolumeRead(island, "workspace");
    ParsedHasMarker(home);
    ParsedHasMarker(work);
    HomeOfAElsewhere();
    TwoNames(home, work);
    OrphanWhen({home, work}, home, "a");
    OrphanWhen({home, work}, work, "a");
    TwoOrphans({home, work}, home, work);
  }

  lemma OrphanWhen(have: set<string>, v: string, island: string)
    requires Island(v) == Some(island) && HomeVolume(island) !in have
    ensures ClassOf(have, v) == Orphan
  {
  }

  lemma ReadAsA()
    ensures ReadAs("a" + MARKER + "b") == Some("a")
  {
    var s := "a" + MARKER + "b" + "-";
    assert s[1..1 + |MARKER|] == MARKER;
    assert At(s, MARKER, 1);
    forall i: int | i > 1 ensures !At(s, MARKER, i) {
      if i + |MARKER| <= |s| {
        assert s[i..i + |MARKER|][0] == s[i];
        assert (i == 2 && s[2] == 'h') || (i == 3 && s[3] == 'o');
      }
    }
    assert ("a" + MARKER + "b")[..1] == "a";
  }

  lemma HomeOfAElsewhere()
    ensures HomeVolume("a") != Volume("a" + MARKER + "b", "home")
        && HomeVolume("a") != Volume("a" + MARKER + "b", "workspace")
  {
    assert |HomeVolume("a")| < |Volume("a" + MARKER + "b", "home")|;
    assert |HomeVolume("a")| < |Volume("a" + MARKER + "b", "workspace")|;
  }

  lemma TwoNames(a: string, b: string)
    requires a != [] && b != [] && Trim(a) == a && Trim(b) == b && Contains(a, MARKER) && Contains(b, MARKER)
    ensures Names([a, b]) == [a, b] && SetOf([a, b]) == {a, b} && Marked([a, b]) == [a, b]
  {
    assert [a, b][..1] == [a] && [a][..0] == [];
    assert Names([a]) == [] + [a] && Marked([a]) == [] + [a];
    assert Names([a, b]) == [a] + [b] && Marked([a, b]) == [a] + [b];
  }

  lemma TwoOrphans(have: set<string>, a: string, b: string)
    requires ClassOf(have, a) == Orphan && ClassOf(have, b) == Orphan
    ensures OfClass(have, [a, b], Orphan) == [a, b]
  {
    assert [a, b][..1] == [a] && [a][..0] == [];
    assert OfClass(have, [a], Orphan) == [] + [a];
    assert OfClass(have, [a, b], Orphan) == [a] + [b];
  }
}
