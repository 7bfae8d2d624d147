/**
 * Camp cleanup: every line gives the section ranges `a-b,c-d` of two elves. Part one counts
 * the pairs in which one range contains the other, part two the pairs whose ranges overlap.
 */
module Sectors {
  import opened Results
  import opened Text

  /** The sections `min` to `max`, both included. */
  datatype Sector = Sector(min: int, max: int)
  {
    predicate Contains(other: Sector)
    {
      min <= other.min && max >= other.max
    }

    predicate Overlaps(other: Sector)
    {
      max >= other.min && min <= other.max
    }

    /** Section `s` belongs to the range. */
    predicate Has(s: int)
    {
      min <= s <= max
    }

    predicate WellFormed()
    {
      min <= max
    }
  }

  lemma ContainsReflexive(a: Sector)
    ensures a.Contains(a)
  {
  }

  lemma OverlapsSymmetric(a: Sector, b: Sector)
    ensures a.Overlaps(b) <==> b.Overlaps(a)
  {
  }

  /** A range contains a well-formed one exactly when it has every one of its sections. */
  lemma ContainsMeansCovers(a: Sector, b: Sector)
    requires b.WellFormed()
    ensures a.Contains(b) <==> forall s :: b.Has(s) ==> a.Has(s)
  {
    if forall s :: b.Has(s) ==> a.Has(s) {
      assert b.Has(b.min) && b.Has(b.max);
    }
  }

  /** Two well-formed ranges overlap exactly when they share a section. */
  lemma OverlapsMeansShares(a: Sector, b: Sector)
    requires a.WellFormed() && b.WellFormed()
    ensures a.Overlaps(b) <==> exists s :: a.Has(s) && b.Has(s)
  {
    if a.Overlaps(b) {
      var s := if a.min < b.min then b.min else a.min;
      assert a.Has(s) && b.Has(s);
    }
  }

  /** Containing a well-formed range implies overlapping it. */
  lemma ContainsImpliesOverlaps(a: Sector, b: Sector)
    requires b.WellFormed()
    ensures a.Contains(b) ==> a.Overlaps(b)
  {
  }

  /** One elf's `a-b`: the first two pieces between dashes, each an `Int`. */
  function ParseSector(elf: string): Option<Sector>
  {
    var ids := Split(elf, '-');
    if |ids| < 2 then None
    else
      var lo, hi := ParseInt(ids[0]), ParseInt(ids[1]);
      if lo.None? || hi.None? then None else Some(Sector(lo.value, hi.value))
  }

  /** Every comma-separated piece of a line is parsed, even past the second. */
  function ParseSectors(elves: seq<string>): (r: Option<seq<Sector>>)
    ensures r.Some? ==> |r.value| == |elves|
    decreases |elves|
  {
    if elves == [] then Some([])
    else
      var front := ParseSectors(elves[..|elves| - 1]);
      var last := ParseSector(elves[|elves| - 1]);
      if front.None? || last.None? then None else Some(front.value + [last.value])
  }

  /** `extractSectors` on one line: the first two sectors, or `None` when Kotlin throws. */
  function ParseLine(line: string): Option<(Sector, Sector)>
  {
    match ParseSectors(Split(line, ','))
    case None => None
    case Some(sectors) =>
      if |sectors| < 2 then None else Some((sectors[0], sectors[1]))
  }

  /** `extractSectors`: one pair per line, in order. */
  function ExtractSectors(lines: seq<string>): (r: Option<seq<(Sector, Sector)>>)
    ensures r.Some? ==> |r.value| == |lines|
    ensures r.Some? ==> forall k :: 0 <= k < |lines| ==> ParseLine(lines[k]) == Some(r.value[k])
    ensures r.None? <==> exists k :: 0 <= k < |lines| && ParseLine(lines[k]).None?
    decreases |lines|
  {
    if lines == [] then Some([])
    else
      var front := ExtractSectors(lines[..|lines| - 1]);
      var last := ParseLine(lines[|lines| - 1]);
      if front.None? then
        assert exists k :: 0 <= k < |lines| && ParseLine(lines[k]).None? by {
          var k :| 0 <= k < |lines| - 1 && ParseLine(lines[..|lines| - 1][k]).None?;
          assert lines[..|lines| - 1][k] == lines[k];
        }
        None
      else if last.None? then None
      else
        assert forall k :: 0 <= k < |lines| - 1 ==> lines[..|lines| - 1][k] == lines[k];
        Some(front.value + [last.value])
  }

  /** The text of a sector with non-negative bounds. */
  function RenderSector(s: Sector): string
    requires 0 <= s.min && 0 <= s.max
  {
    NatToString(s.min) + "-" + NatToString(s.max)
  }

  function RenderLine(a: Sector, b: Sector): string
    requires 0 <= a.min && 0 <= a.max && 0 <= b.min && 0 <= b.max
  {
    RenderSector(a) + "," + RenderSector(b)
  }

  lemma DigitsHaveNo(n: nat, c: char)
    requires !IsDigit(c)
    ensures c !in NatToString(n)
  {
    var s := NatToString(n);
    assert forall i :: 0 <= i < |s| ==> s[i] != c;
  }

  lemma ParseRenderedSector(s: Sector)
    requires 0 <= s.min <= IntMax && 0 <= s.max <= IntMax
    ensures ParseSector(RenderSector(s)) == Some(s)
  {
    var parts := [NatToString(s.min), NatToString(s.max)];
    DigitsHaveNo(s.min, '-');
    DigitsHaveNo(s.max, '-');
    assert Join(parts, '-') == RenderSector(s);
    SplitJoin(parts, '-');
    ParseNatToString(s.min);
    ParseNatToString(s.max);
  }

  /** A rendered line parses back to its two sectors. */
  lemma ParseRenderedLine(a: Sector, b: Sector)
    requires 0 <= a.min <= IntMax && 0 <= a.max <= IntMax
    requires 0 <= b.min <= IntMax && 0 <= b.max <= IntMax
    ensures ParseLine(RenderLine(a, b)) == Some((a, b))
  {
    var parts := [RenderSector(a), RenderSector(b)];
    DigitsHaveNo(a.min, ',');
    DigitsHaveNo(a.max, ',');
    DigitsHaveNo(b.min, ',');
    DigitsHaveNo(b.max, ',');
    assert ',' !in RenderSector(a);
    assert ',' !in RenderSector(b);
    assert Join(parts, ',') == RenderLine(a, b);
    SplitJoin(parts, ',');
    ParseRenderedSector(a);
    ParseRenderedSector(b);
    var one := parts[..1];
    assert one[..|one| - 1] == [] && one[|one| - 1] == RenderSector(a);
    assert ParseSector(one[|one| - 1]) == Some(a);
    assert ParseSectors(one[..|one| - 1]) == Some([]);
    assert ParseSectors(one).Some?;
    assert ParseSectors(one).value == [a];
    assert parts[..|parts| - 1] == one && parts[|parts| - 1] == RenderSector(b);
    assert ParseSectors(parts).value == [a, b];
  }

  /** Part one's filter: either sector contains the other. */
  predicate EitherContains(p: (Sector, Sector))
  {
    p.0.Contains(p.1) || p.1.Contains(p.0)
  }

  /** Part two's filter: either sector overlaps the other. */
  predicate EitherOverlaps(p: (Sector, Sector))
  {
    p.0.Overlaps(p.1) || p.1.Overlaps(p.0)
  }

  function CountContained(pairs: seq<(Sector, Sector)>): nat
    decreases |pairs|
  {
    if pairs == [] then 0
    else CountContained(pairs[..|pairs| - 1]) + if EitherContains(pairs[|pairs| - 1]) then 1 else 0
  }

  function CountOverlapping(pairs: seq<(Sector, Sector)>): nat
    decreases |pairs|
  {
    if pairs == [] then 0
    else CountOverlapping(pairs[..|pairs| - 1]) + if EitherOverlaps(pairs[|pairs| - 1]) then 1 else 0
  }

  /**
   * With well-formed sectors every pair counted by part one is counted by part two, and
   * neither count exceeds the number of pairs.
   */
  lemma {:induction false} ContainedAmongOverlapping(pairs: seq<(Sector, Sector)>)
    requires forall k :: 0 <= k < |pairs| ==> pairs[k].0.WellFormed() && pairs[k].1.WellFormed()
    ensures CountContained(pairs) <= CountOverlapping(pairs) <= |pairs|
    decreases |pairs|
  {
    if pairs != [] {
      ContainedAmongOverlapping(pairs[..|pairs| - 1]);
      var p := pairs[|pairs| - 1];
      ContainsImpliesOverlaps(p.0, p.1);
      ContainsImpliesOverlaps(p.1, p.0);
    }
  }
}
