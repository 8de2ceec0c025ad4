/** 2023 day 5: seeds through a chain of almanac sections. Each section maps
    numbers through the first of its mappings whose source window holds them
    and passes the others on unchanged. The model follows the source's range
    mapper: each section cuts a range of numbers into the pieces inside and
    outside each window, shifts the inside pieces and hands the outside ones
    to the next mapping; the answer is the smallest location start. */
module Day2023_05 {
  import opened Common

  /** The numbers `start` to `start + length - 1`. */
  datatype Range = Range(start: int, length: int)

  /** The numbers `sourceStart` to `sourceStart + length - 1` map to those
    * from `destinationStart` on. */
  datatype Mapping = Mapping(destinationStart: int, sourceStart: int, length: int)

  /** The mappings of one section, in input order. */
  type Section = seq<Mapping>

  predicate In(r: Range, p: int)
  {
    r.start <= p < r.start + r.length
  }

  /** Some range holds `p`. */
  predicate Contains(rs: seq<Range>, p: int)
  {
    exists k :: 0 <= k < |rs| && In(rs[k], p)
  }

  predicate InWindow(m: Mapping, p: int)
  {
    m.sourceStart <= p < m.sourceStart + m.length
  }

  function Image(m: Mapping, p: int): int
  {
    p - m.sourceStart + m.destinationStart
  }

  // ---------------------------------------------------------------------------
  // The meaning of a section: number by number
  // ---------------------------------------------------------------------------

  /** The image of `p` under the first mapping whose window holds it, if any. */
  function FirstImage(ms: Section, p: int): Option<int>
  {
    if ms == [] then None
    else
      var earlier := FirstImage(ms[..|ms| - 1], p);
      if earlier.Some? then earlier
      else if InWindow(ms[|ms| - 1], p) then Some(Image(ms[|ms| - 1], p))
      else None
  }

  /** A section maps a number by its first window that holds it, and leaves
    * it alone when none does. */
  function MapPoint(ms: Section, p: int): int
  {
    var image := FirstImage(ms, p);
    if image.Some? then image.value else p
  }

  /** The location of seed `s`: the sections one after the other. */
  function Location(sections: seq<Section>, s: int): int
  {
    if sections == [] then s else MapPoint(sections[|sections| - 1], Location(sections[..|sections| - 1], s))
  }

  // ---------------------------------------------------------------------------
  // The range mapper
  // ---------------------------------------------------------------------------

  /** A piece pushed only when its length is positive. */
  function Piece(start: int, length: int): seq<Range>
  {
    if length > 0 then [Range(start, length)] else []
  }

  /** What one mapping does to one entry of the stack: the pieces it passes
    * on to the next mapping, and the shifted piece it emits. */
  function Split(entry: Range, m: Mapping): (seq<Range>, seq<Range>)
  {
    var entryStart := entry.start;
    var entryEnd := entry.start + entry.length;
    var sourceStart := m.sourceStart;
    var sourceEnd := m.sourceStart + m.length;
    if entryStart > sourceEnd || sourceStart > entryEnd then ([entry], [])
    else
      var leftLength := sourceStart - entryStart;
      var rightLength := entryEnd - sourceEnd;
      var mappedStart := if entryStart > sourceStart then entryStart else sourceStart;
      var mappedEnd := if entryEnd < sourceEnd then entryEnd else sourceEnd;
      (Piece(entryStart, leftLength) + Piece(entryEnd - rightLength, rightLength),
       Piece(mappedStart - sourceStart + m.destinationStart, mappedEnd - mappedStart))
  }

  /** One mapping over the whole stack: the next stack and the emitted
    * pieces, entry by entry. */
  function Step(stack: seq<Range>, m: Mapping): (seq<Range>, seq<Range>)
  {
    if stack == [] then ([], [])
    else
      var (next, out) := Step(stack[..|stack| - 1], m);
      var (next', out') := Split(stack[|stack| - 1], m);
      (next + next', out + out')
  }

  /** The mappings one after the other from the stack `init`: the pieces
    * emitted, in order, and the stack left. */
  function Run(ms: Section, init: seq<Range>): (seq<Range>, seq<Range>)
  {
    if ms == [] then ([], init)
    else
      var (result, stack) := Run(ms[..|ms| - 1], init);
      var (next, out) := Step(stack, ms[|ms| - 1]);
      (result + out, next)
  }

  function Lengths(rs: seq<Range>): (r: seq<int>)
    ensures |r| == |rs| && forall k :: 0 <= k < |rs| ==> r[k] == rs[k].length
  {
    seq(|rs|, k requires 0 <= k < |rs| => rs[k].length)
  }

  /** `sumBy(allRanges, range => range.length)` */
  function TotalLength(rs: seq<Range>): int
  {
    Sum(Lengths(rs))
  }

  /** The mapper of a section: the emitted pieces, then the stack left; the
    * source's assertion fails when their lengths do not add up to the
    * range's. */
  function Mapper(ms: Section, range: Range): Result<seq<Range>>
  {
    var (result, stack) := Run(ms, [range]);
    var allRanges := result + stack;
    if range.length == TotalLength(allRanges) then Success(allRanges) else Failure("range.length")
  }

  /** The inner loop of the mapper: each entry of the stack against one
    * mapping, pushing onto the next stack and onto `result`. */
  method SplitAll(stack: seq<Range>, m: Mapping, result: seq<Range>) returns (nextStack: seq<Range>, result': seq<Range>)
    ensures nextStack == Step(stack, m).0 && result' == result + Step(stack, m).1
  {
    nextStack := [];
    result' := result;
    for i := 0 to |stack|
      invariant nextStack == Step(stack[..i], m).0 && result' == result + Step(stack[..i], m).1
    {
      assert stack[..i + 1][..i] == stack[..i];
      var passed, mapped := SplitEntry(stack[i], m);
      nextStack := nextStack + passed;
      result' := result' + mapped;
    }
    assert stack[..|stack|] == stack;
  }

  /** The body of the inner loop: what one entry pushes onto the next stack
    * and onto `result`. */
  method SplitEntry(entry: Range, m: Mapping) returns (passed: seq<Range>, mapped: seq<Range>)
    ensures (passed, mapped) == Split(entry, m)
  {
    var sourceStart := m.sourceStart;
    var sourceEnd := m.sourceStart + m.length;
    var entryStart := entry.start;
    var entryEnd := entry.start + entry.length;
    passed, mapped := [], [];
    if entryStart > sourceEnd || sourceStart > entryEnd {
      passed := passed + [entry];
      assert passed == [entry];
      assert mapped == [];
      SplitDisjoint(entry, m);
      return;
    }
    var leftLength := sourceStart - entryStart;
    if leftLength > 0 {
      passed := passed + [Range(entryStart, leftLength)];
    }
    assert passed == Piece(entryStart, leftLength);
    var rightLength := entryEnd - sourceEnd;
    if rightLength > 0 {
      passed := passed + [Range(entryEnd - rightLength, rightLength)];
    }
    assert passed == Piece(entryStart, leftLength) + Piece(entryEnd - rightLength, rightLength);
    var mappedStart := if entryStart > sourceStart then entryStart else sourceStart;
    var mappedEnd := if entryEnd < sourceEnd then entryEnd else sourceEnd;
    if mappedStart < mappedEnd {
      var resultEntry := Range(mappedStart - sourceStart + m.destinationStart, mappedEnd - mappedStart);
      mapped := mapped + [resultEntry];
    }
    assert mapped == Piece(mappedStart - sourceStart + m.destinationStart, mappedEnd - mappedStart);
  }

  /** The range mapper of a section. */
  method MapRange(ms: Section, range: Range) returns (r: Result<seq<Range>>)
    ensures r == Mapper(ms, range)
  {
    var result: seq<Range> := [];
    var stack := [range];
    for i := 0 to |ms|
      invariant (result, stack) == Run(ms[..i], [range])
    {
      assert ms[..i + 1][..i] == ms[..i];
      var nextStack;
      nextStack, result := SplitAll(stack, ms[i], result);
      stack := nextStack;
    }
    assert ms[..|ms|] == ms;
    var allRanges := result + stack;
    if range.length != TotalLength(allRanges) {
      return Failure("range.length");
    }
    return Success(allRanges);
  }

  // ---------------------------------------------------------------------------
  // Properties of one split
  // ---------------------------------------------------------------------------

  /** An entry the window does not reach passes on unchanged. */
  lemma SplitDisjoint(entry: Range, m: Mapping)
    requires entry.start > m.sourceStart + m.length || m.sourceStart > entry.start + entry.length
    ensures Split(entry, m) == ([entry], [])
  {
  }

  /** Every piece split off or emitted has a positive length, unless the
    * entry passes whole. */
  lemma SplitPositive(entry: Range, m: Mapping)
    ensures Split(entry, m).0 == [entry] || forall k :: 0 <= k < |Split(entry, m).0| ==> Split(entry, m).0[k].length > 0
    ensures forall k :: 0 <= k < |Split(entry, m).1| ==> Split(entry, m).1[k].length > 0
  {
  }

  /** Each number of the entry inside the window is emitted shifted, and each
    * one outside it is passed on. */
  lemma SplitCovers(entry: Range, m: Mapping, p: int)
    requires In(entry, p)
    ensures InWindow(m, p) ==> Contains(Split(entry, m).1, Image(m, p))
    ensures !InWindow(m, p) ==> Contains(Split(entry, m).0, p)
  {
    var (next, out) := Split(entry, m);
    if InWindow(m, p) {
      assert In(out[0], Image(m, p));
    } else if entry.start > m.sourceStart + m.length || m.sourceStart > entry.start + entry.length {
      assert In(next[0], p);
    } else if p < m.sourceStart {
      assert In(next[0], p);
    } else {
      assert In(next[|next| - 1], p);
    }
  }

  /** Everything emitted is the image of a number of the entry inside the
    * window, and everything passed on is a number of the entry outside it. */
  lemma SplitSound(entry: Range, m: Mapping, q: int)
    ensures Contains(Split(entry, m).1, q) ==>
      In(entry, q - m.destinationStart + m.sourceStart) && InWindow(m, q - m.destinationStart + m.sourceStart)
    ensures Contains(Split(entry, m).0, q) ==> In(entry, q) && !InWindow(m, q)
  {
  }

  /** With lengths that are not negative, the pieces' lengths add up to the
    * entry's. */
  lemma SplitLengths(entry: Range, m: Mapping)
    requires entry.length >= 0 && m.length >= 0
    ensures TotalLength(Split(entry, m).0) + TotalLength(Split(entry, m).1) == entry.length
    ensures NonNegative(Split(entry, m).0) && NonNegative(Split(entry, m).1)
  {
    var entryStart := entry.start;
    var entryEnd := entry.start + entry.length;
    var sourceStart := m.sourceStart;
    var sourceEnd := m.sourceStart + m.length;
    if entryStart > sourceEnd || sourceStart > entryEnd {
      TotalLengthSingle(entry);
      TotalLengthEmpty();
    } else {
      var leftLength := sourceStart - entryStart;
      var rightLength := entryEnd - sourceEnd;
      var mappedStart := if entryStart > sourceStart then entryStart else sourceStart;
      var mappedEnd := if entryEnd < sourceEnd then entryEnd else sourceEnd;
      var left, right := Piece(entryStart, leftLength), Piece(entryEnd - rightLength, rightLength);
      var mapped := Piece(mappedStart - sourceStart + m.destinationStart, mappedEnd - mappedStart);
      assert Split(entry, m) == (left + right, mapped);
      PieceLength(entryStart, leftLength);
      PieceLength(entryEnd - rightLength, rightLength);
      PieceLength(mappedStart - sourceStart + m.destinationStart, mappedEnd - mappedStart);
      TotalLengthAppend(left, right);
      NonNegativeAppend(left, right);
      OverlapLengths(entryStart, entryEnd, sourceStart, sourceEnd);
    }
  }

  /** The part left of the window, the part right of it and the part inside
    * it make up an interval that meets the window. */
  lemma OverlapLengths(entryStart: int, entryEnd: int, sourceStart: int, sourceEnd: int)
    requires entryStart <= entryEnd && sourceStart <= sourceEnd
    requires entryStart <= sourceEnd && sourceStart <= entryEnd
    ensures var mappedStart := if entryStart > sourceStart then entryStart else sourceStart;
      var mappedEnd := if entryEnd < sourceEnd then entryEnd else sourceEnd;
      (if sourceStart - entryStart > 0 then sourceStart - entryStart else 0)
      + (if entryEnd - sourceEnd > 0 then entryEnd - sourceEnd else 0)
      + (if mappedEnd - mappedStart > 0 then mappedEnd - mappedStart else 0)
      == entryEnd - entryStart
  {
  }

  lemma TotalLengthEmpty()
    ensures TotalLength([]) == 0
  {
    assert Lengths([]) == [];
  }

  lemma TotalLengthSingle(r: Range)
    ensures TotalLength([r]) == r.length
  {
    var l := Lengths([r]);
    assert l == [r.length];
    assert l[..0] == [];
    assert Sum(l) == Sum(l[..0]) + r.length;
  }

  lemma PieceLength(start: int, length: int)
    ensures TotalLength(Piece(start, length)) == if length > 0 then length else 0
    ensures NonNegative(Piece(start, length))
  {
    if length > 0 {
      TotalLengthSingle(Range(start, length));
    } else {
      TotalLengthEmpty();
    }
  }

  predicate NonNegative(rs: seq<Range>)
  {
    forall k :: 0 <= k < |rs| ==> rs[k].length >= 0
  }

  lemma TotalLengthAppend(a: seq<Range>, b: seq<Range>)
    ensures TotalLength(a + b) == TotalLength(a) + TotalLength(b)
  {
    assert Lengths(a + b) == Lengths(a) + Lengths(b);
    SumAppend(Lengths(a), Lengths(b));
  }

  lemma ContainsAppend(a: seq<Range>, b: seq<Range>, p: int)
    ensures Contains(a + b, p) <==> Contains(a, p) || Contains(b, p)
  {
    if Contains(a, p) {
      var k :| 0 <= k < |a| && In(a[k], p);
      assert (a + b)[k] == a[k];
    }
    if Contains(b, p) {
      var k :| 0 <= k < |b| && In(b[k], p);
      assert (a + b)[|a| + k] == b[k];
    }
    if Contains(a + b, p) {
      var k :| 0 <= k < |a + b| && In((a + b)[k], p);
      if k < |a| {
        assert In(a[k], p);
      } else {
        assert In(b[k - |a|], p);
      }
    }
  }

  // ---------------------------------------------------------------------------
  // Properties of a step and of a run
  // ---------------------------------------------------------------------------

  /** Over the stack, each number inside the window is emitted shifted and
    * each one outside it is passed on. */
  lemma {:induction false} StepCovers(stack: seq<Range>, m: Mapping, p: int)
    requires Contains(stack, p)
    ensures InWindow(m, p) ==> Contains(Step(stack, m).1, Image(m, p))
    ensures !InWindow(m, p) ==> Contains(Step(stack, m).0, p)
  {
    var init := stack[..|stack| - 1];
    var last := stack[|stack| - 1];
    var (next, out) := Step(init, m);
    var (next', out') := Split(last, m);
    ContainsAppend(next, next', p);
    ContainsAppend(out, out', Image(m, p));
    if In(last, p) {
      SplitCovers(last, m, p);
    } else {
      var k :| 0 <= k < |stack| && In(stack[k], p);
      assert In(init[k], p);
      StepCovers(init, m, p);
    }
  }

  lemma {:induction false} StepLengths(stack: seq<Range>, m: Mapping)
    requires NonNegative(stack) && m.length >= 0
    ensures TotalLength(Step(stack, m).0) + TotalLength(Step(stack, m).1) == TotalLength(stack)
    ensures NonNegative(Step(stack, m).0) && NonNegative(Step(stack, m).1)
  {
    if stack == [] {
      TotalLengthEmpty();
    } else {
      var init := stack[..|stack| - 1];
      var last := stack[|stack| - 1];
      assert NonNegative(init) && last.length >= 0;
      StepLengths(init, m);
      SplitLengths(last, m);
      var (next, out) := Step(init, m);
      var (next', out') := Split(last, m);
      assert Step(stack, m) == (next + next', out + out');
      TotalLengthAppend(next, next');
      TotalLengthAppend(out, out');
      assert stack == init + [last];
      TotalLengthAppend(init, [last]);
      TotalLengthSingle(last);
      NonNegativeAppend(next, next');
      NonNegativeAppend(out, out');
    }
  }

  lemma NonNegativeAppend(a: seq<Range>, b: seq<Range>)
    requires NonNegative(a) && NonNegative(b)
    ensures NonNegative(a + b)
  {
    assert forall k :: 0 <= k < |a + b| ==> (a + b)[k] == if k < |a| then a[k] else b[k - |a|];
  }

  /** After the mappings, a number of the initial stack has been emitted as
    * its image under the first window that holds it, or, when no window
    * does, is still on the stack. */
  lemma {:induction false} RunCovers(ms: Section, init: seq<Range>, p: int)
    requires Contains(init, p)
    ensures FirstImage(ms, p).Some? ==> Contains(Run(ms, init).0, FirstImage(ms, p).value)
    ensures FirstImage(ms, p).None? ==> Contains(Run(ms, init).1, p)
  {
    if ms != [] {
      var earlier := ms[..|ms| - 1];
      var m := ms[|ms| - 1];
      RunCovers(earlier, init, p);
      var (result, stack) := Run(earlier, init);
      var (next, out) := Step(stack, m);
      if FirstImage(earlier, p).Some? {
        ContainsAppend(result, out, FirstImage(earlier, p).value);
      } else {
        StepCovers(stack, m, p);
        ContainsAppend(result, out, Image(m, p));
      }
    }
  }

  predicate ValidSection(ms: Section)
  {
    forall k :: 0 <= k < |ms| ==> ms[k].length >= 0
  }

  lemma {:induction false} RunLengths(ms: Section, init: seq<Range>)
    requires NonNegative(init) && ValidSection(ms)
    ensures TotalLength(Run(ms, init).0) + TotalLength(Run(ms, init).1) == TotalLength(init)
    ensures NonNegative(Run(ms, init).0) && NonNegative(Run(ms, init).1)
  {
    if ms != [] {
      var earlier := ms[..|ms| - 1];
      var m := ms[|ms| - 1];
      assert ValidSection(earlier) by {
        assert forall k :: 0 <= k < |earlier| ==> earlier[k] == ms[k];
      }
      RunLengths(earlier, init);
      var (result, stack) := Run(earlier, init);
      StepLengths(stack, m);
      var (next, out) := Step(stack, m);
      TotalLengthAppend(result, out);
    }
  }

  /** With lengths that are not negative the mapper's assertion holds; its
    * ranges hold the section's image of every number of the range. */
  lemma MapperCovers(ms: Section, range: Range)
    requires range.length >= 0 && ValidSection(ms)
    ensures Mapper(ms, range).Success?
    ensures NonNegative(Mapper(ms, range).value)
    ensures forall p :: In(range, p) ==> Contains(Mapper(ms, range).value, MapPoint(ms, p))
  {
    RunLengths(ms, [range]);
    var (result, stack) := Run(ms, [range]);
    TotalLengthAppend(result, stack);
    TotalLengthSingle(range);
    forall p | In(range, p)
      ensures Contains(result + stack, MapPoint(ms, p))
    {
      assert [range][0] == range;
      RunCovers(ms, [range], p);
      ContainsAppend(result, stack, MapPoint(ms, p));
    }
  }

  // ---------------------------------------------------------------------------
  // Locations
  // ---------------------------------------------------------------------------

  /** `flatten(ranges.map(mapper))`: the first failing range fails. */
  function MapAll(ms: Section, ranges: seq<Range>): Result<seq<Range>>
  {
    if ranges == [] then Success([])
    else
      match MapAll(ms, ranges[..|ranges| - 1])
      case Failure(e) => Failure(e)
      case Success(done) =>
        match Mapper(ms, ranges[|ranges| - 1])
        case Failure(e) => Failure(e)
        case Success(rs) => Success(done + rs)
  }

  /** `getLocations`: the sections one after the other. */
  function Locations(sections: seq<Section>, seedRanges: seq<Range>): Result<seq<Range>>
  {
    if sections == [] then Success(seedRanges)
    else
      match Locations(sections[..|sections| - 1], seedRanges)
      case Failure(e) => Failure(e)
      case Success(ranges) => MapAll(sections[|sections| - 1], ranges)
  }

  /** The loop of `getLocations` over the sections. */
  method GetLocations(sections: seq<Section>, seedRanges: seq<Range>) returns (r: Result<seq<Range>>)
    ensures r == Locations(sections, seedRanges)
  {
    var ranges := seedRanges;
    for i := 0 to |sections|
      invariant Locations(sections[..i], seedRanges) == Success(ranges)
    {
      LocationsNext(sections, seedRanges, i);
      var mapped := MapRanges(sections[i], ranges);
      if mapped.Failure? {
        r := mapped;
        FailureStays(sections, seedRanges, i + 1);
        return;
      }
      ranges := mapped.value;
    }
    assert sections[..|sections|] == sections;
    return Success(ranges);
  }

  /** One more section maps the ranges reached so far. */
  lemma LocationsNext(sections: seq<Section>, seedRanges: seq<Range>, i: nat)
    requires i < |sections| && Locations(sections[..i], seedRanges).Success?
    ensures Locations(sections[..i + 1], seedRanges) == MapAll(sections[i], Locations(sections[..i], seedRanges).value)
  {
    assert sections[..i + 1][..i] == sections[..i];
  }

  /** `ranges.map(mapper)`, flattened. */
  method MapRanges(ms: Section, ranges: seq<Range>) returns (r: Result<seq<Range>>)
    ensures r == MapAll(ms, ranges)
  {
    var done: seq<Range> := [];
    for i := 0 to |ranges|
      invariant MapAll(ms, ranges[..i]) == Success(done)
    {
      var rs := MapRange(ms, ranges[i]);
      MapAllNext(ms, ranges, i, done, rs);
      if rs.Failure? {
        r := rs;
        MapAllFailureStays(ms, ranges, i + 1);
        return;
      }
      done := done + rs.value;
    }
    assert ranges[..|ranges|] == ranges;
    return Success(done);
  }

  /** Mapping one more range appends its pieces, or fails with it. */
  lemma MapAllNext(ms: Section, ranges: seq<Range>, i: nat, done: seq<Range>, rs: Result<seq<Range>>)
    requires i < |ranges| && MapAll(ms, ranges[..i]) == Success(done) && rs == Mapper(ms, ranges[i])
    ensures MapAll(ms, ranges[..i + 1]) == if rs.Failure? then rs else Success(done + rs.value)
  {
    assert ranges[..i + 1][..i] == ranges[..i];
  }

  lemma {:induction false} MapAllFailureStays(ms: Section, ranges: seq<Range>, i: nat)
    requires i <= |ranges| && MapAll(ms, ranges[..i]).Failure?
    ensures MapAll(ms, ranges) == MapAll(ms, ranges[..i])
    decreases |ranges| - i
  {
    if i < |ranges| {
      assert ranges[..i + 1][..i] == ranges[..i];
      MapAllFailureStays(ms, ranges, i + 1);
    } else {
      assert ranges[..i] == ranges;
    }
  }

  lemma {:induction false} FailureStays(sections: seq<Section>, seedRanges: seq<Range>, i: nat)
    requires i <= |sections| && Locations(sections[..i], seedRanges).Failure?
    ensures Locations(sections, seedRanges) == Locations(sections[..i], seedRanges)
    decreases |sections| - i
  {
    if i < |sections| {
      assert sections[..i + 1][..i] == sections[..i];
      FailureStays(sections, seedRanges, i + 1);
    } else {
      assert sections[..i] == sections;
    }
  }

  /** Mapping every range of a list: each number of the list reaches its
    * image. */
  lemma {:induction false} MapAllCovers(ms: Section, ranges: seq<Range>)
    requires NonNegative(ranges) && ValidSection(ms)
    ensures MapAll(ms, ranges).Success? && NonNegative(MapAll(ms, ranges).value)
    ensures forall p :: Contains(ranges, p) ==> Contains(MapAll(ms, ranges).value, MapPoint(ms, p))
  {
    if ranges != [] {
      var init := ranges[..|ranges| - 1];
      var last := ranges[|ranges| - 1];
      MapAllCovers(ms, init);
      MapperCovers(ms, last);
      var done := MapAll(ms, init).value;
      var rs := Mapper(ms, last).value;
      forall p | Contains(ranges, p)
        ensures Contains(done + rs, MapPoint(ms, p))
      {
        ContainsAppend(done, rs, MapPoint(ms, p));
        var k :| 0 <= k < |ranges| && In(ranges[k], p);
        if k < |init| {
          assert In(init[k], p);
        }
      }
    }
  }

  predicate ValidSections(sections: seq<Section>)
  {
    forall i :: 0 <= i < |sections| ==> ValidSection(sections[i])
  }

  /** Through all the sections, each seed number reaches its location. */
  lemma {:induction false} LocationsCover(sections: seq<Section>, seedRanges: seq<Range>)
    requires NonNegative(seedRanges) && ValidSections(sections)
    ensures Locations(sections, seedRanges).Success? && NonNegative(Locations(sections, seedRanges).value)
    ensures forall s :: Contains(seedRanges, s) ==> Contains(Locations(sections, seedRanges).value, Location(sections, s))
  {
    if sections != [] {
      var earlier := sections[..|sections| - 1];
      assert ValidSections(earlier) by {
        assert forall i :: 0 <= i < |earlier| ==> earlier[i] == sections[i];
      }
      LocationsCover(earlier, seedRanges);
      MapAllCovers(sections[|sections| - 1], Locations(earlier, seedRanges).value);
    }
  }

  // ---------------------------------------------------------------------------
  // Soundness: every number of the output comes from a seed
  // ---------------------------------------------------------------------------

  /** Every range holds at least one number. */
  predicate Positive(rs: seq<Range>)
  {
    forall k :: 0 <= k < |rs| ==> rs[k].length > 0
  }

  lemma PositiveAppend(a: seq<Range>, b: seq<Range>)
    requires Positive(a) && Positive(b)
    ensures Positive(a + b)
  {
    assert forall k :: 0 <= k < |a + b| ==> (a + b)[k] == if k < |a| then a[k] else b[k - |a|];
  }

  /** A number of the last range of a list is a number of the list. */
  lemma ContainsLast(rs: seq<Range>, p: int)
    requires rs != []
    ensures Contains(rs, p) <==> Contains(rs[..|rs| - 1], p) || In(rs[|rs| - 1], p)
  {
    assert rs == rs[..|rs| - 1] + [rs[|rs| - 1]];
    ContainsAppend(rs[..|rs| - 1], [rs[|rs| - 1]], p);
    if In(rs[|rs| - 1], p) {
      assert In([rs[|rs| - 1]][0], p);
    }
  }

  /** Over the stack, everything emitted is the image of a number of the
    * stack inside the window, and everything passed on is a number of the
    * stack outside it. */
  lemma {:induction false} StepSound(stack: seq<Range>, m: Mapping, q: int)
    ensures Contains(Step(stack, m).1, q) ==>
      Contains(stack, q - m.destinationStart + m.sourceStart) && InWindow(m, q - m.destinationStart + m.sourceStart)
    ensures Contains(Step(stack, m).0, q) ==> Contains(stack, q) && !InWindow(m, q)
  {
    if stack != [] {
      var init := stack[..|stack| - 1];
      var last := stack[|stack| - 1];
      var p := q - m.destinationStart + m.sourceStart;
      StepSound(init, m, q);
      SplitSound(last, m, q);
      var (next, out) := Step(init, m);
      var (next', out') := Split(last, m);
      ContainsAppend(next, next', q);
      ContainsAppend(out, out', q);
      ContainsLast(stack, p);
      ContainsLast(stack, q);
    }
  }

  /** Splitting keeps every range non-empty. */
  lemma {:induction false} StepPositive(stack: seq<Range>, m: Mapping)
    requires Positive(stack)
    ensures Positive(Step(stack, m).0) && Positive(Step(stack, m).1)
  {
    if stack != [] {
      var init := stack[..|stack| - 1];
      StepPositive(init, m);
      SplitPositive(stack[|stack| - 1], m);
      var (next, out) := Step(init, m);
      var (next', out') := Split(stack[|stack| - 1], m);
      PositiveAppend(next, next');
      PositiveAppend(out, out');
    }
  }

  /** After the mappings, an emitted number is the first image of a number
    * of the initial stack, and a number left on the stack is one of its
    * own numbers that no window holds. */
  lemma {:induction false} RunSound(ms: Section, init: seq<Range>, q: int)
    ensures Contains(Run(ms, init).0, q) ==> exists p :: Contains(init, p) && FirstImage(ms, p) == Some(q)
    ensures Contains(Run(ms, init).1, q) ==> Contains(init, q) && FirstImage(ms, q).None?
  {
    if ms != [] {
      var earlier := ms[..|ms| - 1];
      var m := ms[|ms| - 1];
      var (result, stack) := Run(earlier, init);
      var (next, out) := Step(stack, m);
      ContainsAppend(result, out, q);
      RunSound(earlier, init, q);
      StepSound(stack, m, q);
      if Contains(out, q) {
        var p := q - m.destinationStart + m.sourceStart;
        RunSound(earlier, init, p);
        assert Image(m, p) == q;
        assert FirstImage(ms, p) == Some(q);
      }
      if Contains(result, q) {
        var p :| Contains(init, p) && FirstImage(earlier, p) == Some(q);
        assert FirstImage(ms, p) == Some(q);
      }
    }
  }

  lemma {:induction false} RunPositive(ms: Section, init: seq<Range>)
    requires Positive(init)
    ensures Positive(Run(ms, init).0) && Positive(Run(ms, init).1)
  {
    if ms != [] {
      var earlier := ms[..|ms| - 1];
      RunPositive(earlier, init);
      var (result, stack) := Run(earlier, init);
      StepPositive(stack, ms[|ms| - 1]);
      PositiveAppend(result, Step(stack, ms[|ms| - 1]).1);
    }
  }

  /** Every number the mapper returns is the section's image of a number of
    * the range, and a non-empty range gives non-empty ranges. */
  lemma MapperSound(ms: Section, range: Range, q: int)
    requires Mapper(ms, range).Success? && Contains(Mapper(ms, range).value, q)
    ensures exists p :: In(range, p) && MapPoint(ms, p) == q
  {
    var (result, stack) := Run(ms, [range]);
    ContainsAppend(result, stack, q);
    RunSound(ms, [range], q);
    assert forall p :: Contains([range], p) ==> In(range, p) by {
      forall p | Contains([range], p) ensures In(range, p) {
        var k :| 0 <= k < 1 && In([range][k], p);
      }
    }
    if Contains(result, q) {
      var p :| Contains([range], p) && FirstImage(ms, p) == Some(q);
      assert MapPoint(ms, p) == q;
    } else {
      assert MapPoint(ms, q) == q;
    }
  }

  lemma MapperPositive(ms: Section, range: Range)
    requires range.length > 0 && Mapper(ms, range).Success?
    ensures Positive(Mapper(ms, range).value)
  {
    RunPositive(ms, [range]);
    var (result, stack) := Run(ms, [range]);
    PositiveAppend(result, stack);
  }

  lemma {:induction false} MapAllSound(ms: Section, ranges: seq<Range>, q: int)
    requires MapAll(ms, ranges).Success? && Contains(MapAll(ms, ranges).value, q)
    ensures exists p :: Contains(ranges, p) && MapPoint(ms, p) == q
  {
    var init := ranges[..|ranges| - 1];
    var last := ranges[|ranges| - 1];
    var done := MapAll(ms, init).value;
    var rs := Mapper(ms, last).value;
    ContainsAppend(done, rs, q);
    if Contains(done, q) {
      MapAllSound(ms, init, q);
      var p :| Contains(init, p) && MapPoint(ms, p) == q;
      ContainsLast(ranges, p);
    } else {
      MapperSound(ms, last, q);
      var p :| In(last, p) && MapPoint(ms, p) == q;
      ContainsLast(ranges, p);
    }
  }

  lemma {:induction false} MapAllPositive(ms: Section, ranges: seq<Range>)
    requires Positive(ranges) && MapAll(ms, ranges).Success?
    ensures Positive(MapAll(ms, ranges).value)
  {
    if ranges != [] {
      var init := ranges[..|ranges| - 1];
      MapAllPositive(ms, init);
      MapperPositive(ms, ranges[|ranges| - 1]);
      PositiveAppend(MapAll(ms, init).value, Mapper(ms, ranges[|ranges| - 1]).value);
    }
  }

  /** Every number of the location ranges is the location of a seed number,
    * and non-empty seed ranges give non-empty location ranges. */
  lemma {:induction false} LocationsSound(sections: seq<Section>, seedRanges: seq<Range>, q: int)
    requires Locations(sections, seedRanges).Success? && Contains(Locations(sections, seedRanges).value, q)
    ensures exists s :: Contains(seedRanges, s) && Location(sections, s) == q
  {
    if sections != [] {
      var earlier := sections[..|sections| - 1];
      var ranges := Locations(earlier, seedRanges).value;
      MapAllSound(sections[|sections| - 1], ranges, q);
      var p :| Contains(ranges, p) && MapPoint(sections[|sections| - 1], p) == q;
      LocationsSound(earlier, seedRanges, p);
      var s :| Contains(seedRanges, s) && Location(earlier, s) == p;
      assert Location(sections, s) == q;
    }
  }

  lemma {:induction false} LocationsPositive(sections: seq<Section>, seedRanges: seq<Range>)
    requires Positive(seedRanges) && Locations(sections, seedRanges).Success?
    ensures Positive(Locations(sections, seedRanges).value)
  {
    if sections != [] {
      var earlier := sections[..|sections| - 1];
      LocationsPositive(earlier, seedRanges);
      MapAllPositive(sections[|sections| - 1], Locations(earlier, seedRanges).value);
    }
  }

  function Starts(rs: seq<Range>): (r: seq<int>)
    ensures |r| == |rs| && forall k :: 0 <= k < |rs| ==> r[k] == rs[k].start
  {
    seq(|rs|, k requires 0 <= k < |rs| => rs[k].start)
  }

  /** `getClosestLocation`: the smallest start; `undefined` without ranges,
    * and the failure of a mapper's assertion. */
  function ClosestLocation(sections: seq<Section>, seedRanges: seq<Range>): (r: Result<Option<int>>)
    ensures r.Failure? <==> Locations(sections, seedRanges).Failure?
    ensures r.Success? ==> (r.value.None? <==> Locations(sections, seedRanges).value == [])
    ensures r.Success? && r.value.Some? ==>
      (exists k :: 0 <= k < |Locations(sections, seedRanges).value| && Locations(sections, seedRanges).value[k].start == r.value.value)
      && forall k :: 0 <= k < |Locations(sections, seedRanges).value| ==> r.value.value <= Locations(sections, seedRanges).value[k].start
  {
    match Locations(sections, seedRanges)
    case Failure(e) => Failure(e)
    case Success(locations) => Success(if locations == [] then None else Some(Min(Starts(locations))))
  }

  /** The closest location is at most the location of every seed number: the
    * answer is a lower bound over all the seeds' locations. */
  lemma ClosestBound(sections: seq<Section>, seedRanges: seq<Range>, s: int)
    requires NonNegative(seedRanges) && ValidSections(sections) && Contains(seedRanges, s)
    ensures ClosestLocation(sections, seedRanges).Success?
    ensures ClosestLocation(sections, seedRanges).value.Some?
    ensures ClosestLocation(sections, seedRanges).value.value <= Location(sections, s)
  {
    LocationsCover(sections, seedRanges);
    var locations := Locations(sections, seedRanges).value;
    var k :| 0 <= k < |locations| && In(locations[k], Location(sections, s));
    assert Starts(locations)[k] == locations[k].start;
  }

  /** With non-empty seed ranges the closest location is attained: it is
    * the location of some seed number. */
  lemma ClosestAttained(sections: seq<Section>, seedRanges: seq<Range>)
    requires Positive(seedRanges)
    requires ClosestLocation(sections, seedRanges).Success? && ClosestLocation(sections, seedRanges).value.Some?
    ensures exists s :: Contains(seedRanges, s) && Location(sections, s) == ClosestLocation(sections, seedRanges).value.value
  {
    var locations := Locations(sections, seedRanges).value;
    LocationsPositive(sections, seedRanges);
    var k :| 0 <= k < |locations| && locations[k].start == ClosestLocation(sections, seedRanges).value.value;
    assert In(locations[k], locations[k].start);
    LocationsSound(sections, seedRanges, locations[k].start);
  }

  /** Part 1: each seed is a range of one number. */
  function SeedNumbers(seeds: seq<int>): (r: seq<Range>)
    ensures |r| == |seeds| && forall k :: 0 <= k < |seeds| ==> r[k] == Range(seeds[k], 1)
  {
    seq(|seeds|, k requires 0 <= k < |seeds| => Range(seeds[k], 1))
  }

  /** Part 2: `chunk(seeds, 2)` read as start and length pairs, as far as
    * the seeds pair up. */
  function SeedPairs(seeds: seq<int>): (r: seq<Range>)
    ensures |r| == |seeds| / 2
    ensures forall k :: 0 <= k < |r| ==> r[k] == Range(seeds[2 * k], seeds[2 * k + 1])
  {
    seq(|seeds| / 2, k requires 0 <= k < |seeds| / 2 => Range(seeds[2 * k], seeds[2 * k + 1]))
  }

  /** The last chunk of an odd number of seeds is a start whose length is
    * `undefined`. Each mapping of a section either passes it on whole, when
    * its window ends before the start, or drops it from the stack and keeps
    * only pieces with a number length; the lengths then no longer add up to
    * `undefined` and the mapper's assertion fails. So it survives exactly
    * when every window of every section ends before it, and is then its own
    * location. */
  predicate LoneSurvives(sections: seq<Section>, start: int)
  {
    forall i, k :: 0 <= i < |sections| && 0 <= k < |sections[i]| ==>
      start > sections[i][k].sourceStart + sections[i][k].length
  }

  function Part1(seeds: seq<int>, sections: seq<Section>): Result<Option<int>>
  {
    ClosestLocation(sections, SeedNumbers(seeds))
  }

  function Part2(seeds: seq<int>, sections: seq<Section>): Result<Option<int>>
  {
    var closest := ClosestLocation(sections, SeedPairs(seeds));
    if |seeds| % 2 == 0 then closest
    else
      var lone := seeds[|seeds| - 1];
      if !LoneSurvives(sections, lone) then Failure("range.length")
      else match closest
        case Failure(e) => Failure(e)
        case Success(None) => Success(Some(lone))
        case Success(Some(m)) => Success(Some(if lone < m then lone else m))
  }

  /** Part 1 finds a location no larger than any seed's. */
  lemma Part1Bound(seeds: seq<int>, sections: seq<Section>, k: nat)
    requires ValidSections(sections) && k < |seeds|
    ensures Part1(seeds, sections).Success? && Part1(seeds, sections).value.Some?
    ensures Part1(seeds, sections).value.value <= Location(sections, seeds[k])
  {
    var rs := SeedNumbers(seeds);
    assert In(rs[k], seeds[k]);
    ClosestBound(sections, rs, seeds[k]);
  }

  /** Part 1's answer is the location of one of the seeds. */
  lemma Part1Attained(seeds: seq<int>, sections: seq<Section>)
    requires Part1(seeds, sections).Success? && Part1(seeds, sections).value.Some?
    ensures exists k :: 0 <= k < |seeds| && Location(sections, seeds[k]) == Part1(seeds, sections).value.value
  {
    var rs := SeedNumbers(seeds);
    ClosestAttained(sections, rs);
    var s :| Contains(rs, s) && Location(sections, s) == Part1(seeds, sections).value.value;
    var k :| 0 <= k < |rs| && In(rs[k], s);
    assert s == seeds[k];
  }

  /** A surviving lone start meets no window, so it is its own location. */
  lemma {:induction false} LoneLocation(sections: seq<Section>, start: int)
    requires LoneSurvives(sections, start)
    ensures Location(sections, start) == start
  {
    if sections != [] {
      var earlier := sections[..|sections| - 1];
      assert LoneSurvives(earlier, start) by {
        forall i, k | 0 <= i < |earlier| && 0 <= k < |earlier[i]|
          ensures start > earlier[i][k].sourceStart + earlier[i][k].length
        {
          assert earlier[i] == sections[i];
        }
      }
      LoneLocation(earlier, start);
      NoWindowFixed(sections[|sections| - 1], start);
    }
  }

  lemma {:induction false} NoWindowFixed(ms: Section, p: int)
    requires forall k :: 0 <= k < |ms| ==> p > ms[k].sourceStart + ms[k].length
    ensures FirstImage(ms, p).None? && MapPoint(ms, p) == p
  {
    if ms != [] {
      NoWindowFixed(ms[..|ms| - 1], p);
    }
  }

  /** With sound sections and pairs of non-negative length, part 2 fails
    * only for a lone last seed that some window reaches; otherwise its
    * answer is at most the location of every seed number of the pairs and
    * of the lone seed. */
  lemma Part2Bound(seeds: seq<int>, sections: seq<Section>, s: int)
    requires ValidSections(sections) && NonNegative(SeedPairs(seeds))
    requires Contains(SeedPairs(seeds), s) || (|seeds| % 2 == 1 && s == seeds[|seeds| - 1])
    ensures Part2(seeds, sections).Success? <==> |seeds| % 2 == 0 || LoneSurvives(sections, seeds[|seeds| - 1])
    ensures Part2(seeds, sections).Success? ==>
      Part2(seeds, sections).value.Some? && Part2(seeds, sections).value.value <= Location(sections, s)
  {
    var pairs := SeedPairs(seeds);
    LocationsCover(sections, pairs);
    if Contains(pairs, s) {
      ClosestBound(sections, pairs, s);
    } else if LoneSurvives(sections, s) {
      LoneLocation(sections, s);
    }
  }

  /** With pairs of positive length, part 2's answer is the location of a
    * seed number of some pair or of the lone last seed. */
  lemma Part2Attained(seeds: seq<int>, sections: seq<Section>)
    requires Positive(SeedPairs(seeds))
    requires Part2(seeds, sections).Success? && Part2(seeds, sections).value.Some?
    ensures var answer := Part2(seeds, sections).value.value;
      || (exists s :: Contains(SeedPairs(seeds), s) && Location(sections, s) == answer)
      || (|seeds| % 2 == 1 && answer == seeds[|seeds| - 1] == Location(sections, answer))
  {
    var pairs := SeedPairs(seeds);
    var closest := ClosestLocation(sections, pairs);
    if closest.Success? && closest.value.Some? {
      ClosestAttained(sections, pairs);
    }
    if |seeds| % 2 == 1 {
      LoneLocation(sections, seeds[|seeds| - 1]);
    }
  }
}
