/** Line assembly: the five segments of `formatLogObj` (src/reporters/basic.js:91-105)
    and the filter/join pipeline of `log` (src/reporters/basic.js:108-110). */
module Line {
  import opened Strings
  import opened Values

  /** The width `formatLogObj` aligns the upper-cased type to. */
  const TypeWidth: nat := 7

  /** The five segments, in order: date, tag, type, message, additional. */
  function Segments(h: Hooks, dateFormat: string, f: Fields): (r: seq<string>)
    ensures |r| == 5
  {
    [ "[" + h.formatDate(dateFormat, f.date) + "]",
      "[" + f.tag + "]",
      "[" + h.leftAlign(h.upper(f.logType), TypeWidth) + "]",
      f.message,
      f.additional ]
  }

  /** The filter of `log`: a segment survives unless it is empty or exactly "[]". */
  predicate Keep(x: string) {
    x != "" && x != "[]"
  }

  /** The segment itself when it survives, nothing otherwise. */
  function Kept(x: string): (r: seq<string>)
    ensures Keep(x) ==> r == [x]
    ensures !Keep(x) ==> r == []
  {
    if Keep(x) then [x] else []
  }

  /** The surviving segments, in their original order. */
  function Survivors(segs: seq<string>): (r: seq<string>)
    ensures |r| <= |segs|
  {
    if |segs| == 0 then []
    else Kept(segs[0]) + Survivors(segs[1..])
  }

  /** The line `log` writes: the survivors joined by single spaces, then a newline. */
  function LineOf(segs: seq<string>): (r: string)
    ensures |r| >= 1 && r[|r| - 1] == '\n'
  {
    Join(Survivors(segs), " ") + "\n"
  }

  /** The survivors are exactly the segments that pass the filter. */
  lemma {:induction false} SurvivorsMembers(segs: seq<string>)
    ensures forall x :: x in Survivors(segs) <==> x in segs && Keep(x)
  {
    if |segs| > 0 {
      SurvivorsMembers(segs[1..]);
      assert segs == [segs[0]] + segs[1..];
    }
  }

  /** Filtering distributes over concatenation, so order is kept. */
  lemma {:induction false} SurvivorsAppend(a: seq<string>, b: seq<string>)
    ensures Survivors(a + b) == Survivors(a) + Survivors(b)
  {
    if |a| == 0 {
      assert a + b == b;
    } else {
      assert (a + b)[0] == a[0];
      assert (a + b)[1..] == a[1..] + b;
      SurvivorsAppend(a[1..], b);
    }
  }

  /** Each of the five segments survives or not on its own merits, in its own place. */
  lemma SurvivorsOfFive(a: string, b: string, c: string, d: string, e: string)
    ensures Survivors([a, b, c, d, e]) == Kept(a) + (Kept(b) + (Kept(c) + (Kept(d) + Kept(e))))
  {
    assert [a, b, c, d, e][1..] == [b, c, d, e];
    assert [b, c, d, e][1..] == [c, d, e];
    assert [c, d, e][1..] == [d, e];
    assert [d, e][1..] == [e];
    assert Survivors([e]) == Kept(e) + Survivors([]);
    assert Survivors([d, e]) == Kept(d) + Survivors([e]);
    assert Survivors([c, d, e]) == Kept(c) + Survivors([d, e]);
    assert Survivors([b, c, d, e]) == Kept(b) + Survivors([c, d, e]);
  }

  /** An empty tag never shows as "[]": the tag segment is dropped and the others
      are filtered as if it were not there. */
  lemma EmptyTagDropped(h: Hooks, dateFormat: string, f: Fields)
    requires f.tag == ""
    ensures var s := Segments(h, dateFormat, f);
      Survivors(s) == Kept(s[0]) + (Kept(s[2]) + (Kept(s[3]) + Kept(s[4])))
    ensures "[]" !in Survivors(Segments(h, dateFormat, f))
  {
    var s := Segments(h, dateFormat, f);
    assert s == [s[0], s[1], s[2], s[3], s[4]];
    assert s[1] == "[]";
    SurvivorsOfFive(s[0], s[1], s[2], s[3], s[4]);
    SurvivorsMembers(s);
  }

  /** The line of two runs of segments is the line of the first run, one space, then
      the line of the second run, whenever both runs have survivors. */
  lemma LineOfAppend(a: seq<string>, b: seq<string>)
    requires Survivors(a) != [] && Survivors(b) != []
    ensures LineOf(a + b) == Join(Survivors(a), " ") + " " + Join(Survivors(b), " ") + "\n"
  {
    SurvivorsAppend(a, b);
    JoinAppend(Survivors(a), Survivors(b), " ");
  }

  /** Splitting the line without its newline on spaces gives back the survivors,
      when none of them contains a space; with no survivors the line is "\n". */
  lemma LineWords(segs: seq<string>)
    ensures Survivors(segs) == [] ==> LineOf(segs) == "\n"
    ensures var kept := Survivors(segs); var line := LineOf(segs);
      kept != [] && (forall k :: 0 <= k < |kept| ==> ' ' !in kept[k]) ==>
        Split(line[..|line| - 1], ' ') == kept
  {
    var kept := Survivors(segs);
    var line := LineOf(segs);
    assert line[..|line| - 1] == Join(kept, " ");
    if kept != [] && (forall k :: 0 <= k < |kept| ==> ' ' !in kept[k]) {
      SplitJoin(kept, ' ');
    }
  }
}
