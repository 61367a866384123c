/** The PE plugin's aggregation and layout logic: cross-reference counting
    through the image's RVA-to-file-offset translation, and the list of
    section boundaries drawn over the graph. The PE parser itself is not part
    of this model: its RVA translation is a function parameter and its section
    table a list of records. */
module PePlugin {
  import opened Common
  import opened Buckets

  // ---------------------------------------------------------------------------
  // pointers_to_references
  // ---------------------------------------------------------------------------

  /** File offsets of the candidates whose rebased value `ptr - imageBase`
      the RVA translation accepts, in visiting order; candidates it rejects
      are skipped. */
  function ConvertedOffsets(cands: seq<Candidate>, imageBase: int, rvaToOffset: int -> Option<nat>): seq<nat>
  {
    if cands == [] then []
    else
      var init := ConvertedOffsets(cands[..|cands| - 1], imageBase, rvaToOffset);
      match rvaToOffset(cands[|cands| - 1].ptr - imageBase)
      case Some(off) => init + [off]
      case None => init
  }

  /** A rejected candidate does not stop the aggregation: the offsets of a
      concatenation are the offsets of the parts, one after the other. */
  lemma {:induction false} ConvertedOffsetsAppend(a: seq<Candidate>, b: seq<Candidate>, imageBase: int, rvaToOffset: int -> Option<nat>)
    ensures ConvertedOffsets(a + b, imageBase, rvaToOffset)
            == ConvertedOffsets(a, imageBase, rvaToOffset) + ConvertedOffsets(b, imageBase, rvaToOffset)
    decreases |b|
  {
    if b == [] {
      assert a + b == a;
    } else {
      var b' := b[..|b| - 1];
      assert (a + b)[..|a + b| - 1] == a + b';
      ConvertedOffsetsAppend(a, b', imageBase, rvaToOffset);
    }
  }

  /** An offset is counted exactly when some candidate's rebased value
      translates to it; at most one offset per candidate. */
  lemma {:induction false} ConvertedOffsetsMembers(cands: seq<Candidate>, imageBase: int, rvaToOffset: int -> Option<nat>, off: nat)
    ensures |ConvertedOffsets(cands, imageBase, rvaToOffset)| <= |cands|
    ensures off in ConvertedOffsets(cands, imageBase, rvaToOffset)
            <==> exists i :: 0 <= i < |cands| && rvaToOffset(cands[i].ptr - imageBase) == Some(off)
  {
    if cands != [] {
      var init := cands[..|cands| - 1];
      ConvertedOffsetsMembers(init, imageBase, rvaToOffset, off);
      if exists i :: 0 <= i < |init| && rvaToOffset(init[i].ptr - imageBase) == Some(off) {
        var i :| 0 <= i < |init| && rvaToOffset(init[i].ptr - imageBase) == Some(off);
        assert cands[i] == init[i];
      }
      if exists i :: 0 <= i < |cands| && rvaToOffset(cands[i].ptr - imageBase) == Some(off) {
        var i :| 0 <= i < |cands| && rvaToOffset(cands[i].ptr - imageBase) == Some(off);
        if i < |init| {
          assert init[i] == cands[i];
        }
      }
    }
  }

  /** The offsets of the first i+1 blocks are those of the first i followed by block i's. */
  lemma ConvertedOffsetsFlattenStep(pointers: seq<seq<Candidate>>, i: nat, imageBase: int, rvaToOffset: int -> Option<nat>)
    requires i < |pointers|
    ensures ConvertedOffsets(Flatten(pointers[..i + 1]), imageBase, rvaToOffset)
            == ConvertedOffsets(Flatten(pointers[..i]), imageBase, rvaToOffset) + ConvertedOffsets(pointers[i], imageBase, rvaToOffset)
  {
    FlattenStep(pointers, i);
    ConvertedOffsetsAppend(Flatten(pointers[..i]), pointers[i], imageBase, rvaToOffset);
  }

  lemma ConvertedOffsetsStep(seen: seq<nat>, temp: seq<Candidate>, j: nat, imageBase: int, rvaToOffset: int -> Option<nat>)
    requires j < |temp|
    ensures seen + ConvertedOffsets(temp[..j + 1], imageBase, rvaToOffset)
            == (seen + ConvertedOffsets(temp[..j], imageBase, rvaToOffset)) + ConvertedOffsets([temp[j]], imageBase, rvaToOffset)
  {
    assert temp[..j + 1] == temp[..j] + [temp[j]];
    ConvertedOffsetsAppend(temp[..j], [temp[j]], imageBase, rvaToOffset);
  }

  /** The body of the inner loop for one candidate: rebase it, translate it,
      and count the file offset unless the translation rejects it. */
  method Visit(refs: map<int, real>, m: int, c: Candidate, imageBase: int, rvaToOffset: int -> Option<nat>,
               ghost offs: seq<nat>, blockLen: int, factor: int) returns (refs': map<int, real>, m': int)
    requires blockLen > 0 && factor > 0
    requires Tallied(refs, m, offs, blockLen, factor)
    ensures Tallied(refs', m', offs + ConvertedOffsets([c], imageBase, rvaToOffset), blockLen, factor)
  {
    var ptr := c.ptr - imageBase;
    var conv := rvaToOffset(ptr);
    assert [c][..0] == [];
    if conv.Some? {
      assert ConvertedOffsets([c], imageBase, rvaToOffset) == [conv.value];
      refs', m' := Tally(refs, m, conv.value, offs, blockLen, factor);
    } else {
      assert offs + ConvertedOffsets([c], imageBase, rvaToOffset) == offs;
      refs', m' := refs, m;
    }
  }

  /** The inner `for off, ptr in temp` loop: counts every candidate of one
      block whose rebased value translates. */
  method TallyBlock(refs: map<int, real>, m: int, temp: seq<Candidate>, imageBase: int, rvaToOffset: int -> Option<nat>,
                    ghost seen: seq<nat>, factor: int, blockLen: int) returns (refs': map<int, real>, m': int)
    requires blockLen > 0 && factor > 0
    requires Tallied(refs, m, seen, blockLen, factor)
    ensures Tallied(refs', m', seen + ConvertedOffsets(temp, imageBase, rvaToOffset), blockLen, factor)
  {
    refs', m' := refs, m;
    var j := 0;
    assert seen + ConvertedOffsets(temp[..j], imageBase, rvaToOffset) == seen;
    while j < |temp|
      invariant 0 <= j <= |temp|
      invariant Tallied(refs', m', seen + ConvertedOffsets(temp[..j], imageBase, rvaToOffset), blockLen, factor)
    {
      ConvertedOffsetsStep(seen, temp, j, imageBase, rvaToOffset);
      refs', m' := Visit(refs', m', temp[j], imageBase, rvaToOffset,
                         seen + ConvertedOffsets(temp[..j], imageBase, rvaToOffset), blockLen, factor);
      j := j + 1;
    }
    assert temp[..j] == temp;
  }

  /** `pointers_to_references` of the PE plugin: rebases every candidate by the
      image base, translates it to a file offset (skipping those the
      translation rejects), counts the offsets per bucket and emits the
      gap-free bucket list, each count divided by the block length. */
  method PointersToReferences(pointers: seq<seq<Candidate>>, imageBase: int, rvaToOffset: int -> Option<nat>,
                              factor: int, blockLen: int) returns (refcounts: seq<real>)
    requires blockLen > 0 && factor > 0
    ensures var offs := ConvertedOffsets(Flatten(pointers), imageBase, rvaToOffset);
            |refcounts| == MaxBucket(offs, blockLen, factor) + 1 &&
            forall k :: 0 <= k < |refcounts| ==>
              refcounts[k] == BucketCount(offs, blockLen, factor, k) as real / blockLen as real
  {
    var base := imageBase;
    var refs: map<int, real> := map[];
    var m := 0;
    var i := 0;
    while i < |pointers|
      invariant 0 <= i <= |pointers|
      invariant Tallied(refs, m, ConvertedOffsets(Flatten(pointers[..i]), base, rvaToOffset), blockLen, factor)
    {
      ConvertedOffsetsFlattenStep(pointers, i, base, rvaToOffset);
      refs, m := TallyBlock(refs, m, pointers[i], base, rvaToOffset,
                            ConvertedOffsets(Flatten(pointers[..i]), base, rvaToOffset), factor, blockLen);
      i := i + 1;
    }
    assert pointers[..i] == pointers;
    refcounts := EmitCounts(refs, m, ConvertedOffsets(Flatten(pointers), base, rvaToOffset), blockLen, factor);
  }

  /** Every translated offset is counted once: the outputs times the block
      length add up to the number of candidates the translation accepted. */
  lemma ReferencesCountEveryConverted(pointers: seq<seq<Candidate>>, imageBase: int, rvaToOffset: int -> Option<nat>,
                                      factor: int, blockLen: int, refcounts: seq<real>)
    requires blockLen > 0 && factor > 0
    requires var offs := ConvertedOffsets(Flatten(pointers), imageBase, rvaToOffset);
             |refcounts| == MaxBucket(offs, blockLen, factor) + 1 &&
             forall k :: 0 <= k < |refcounts| ==>
               refcounts[k] == BucketCount(offs, blockLen, factor, k) as real / blockLen as real
    ensures Sum(refcounts) * blockLen as real == |ConvertedOffsets(Flatten(pointers), imageBase, rvaToOffset)| as real
  {
    CountsConserve(ConvertedOffsets(Flatten(pointers), imageBase, rvaToOffset), blockLen, factor, refcounts);
  }

  // ---------------------------------------------------------------------------
  // _get_boundaries
  // ---------------------------------------------------------------------------

  /** A section-table entry: its raw 8-byte name and its extent in the file. */
  datatype Section = Section(name: string, pointerToRawData: nat, sizeOfRawData: nat)

  /** A region drawn on the graph, from `offset` up to `endOffset`. */
  datatype Boundary = Boundary(name: string, offset: int, endOffset: int)

  function EndOf(s: Section): int
  {
    s.pointerToRawData + s.sizeOfRawData
  }

  /** Inserts a section in front of the first one whose raw offset is not
      larger, so sections with equal offsets keep their order. */
  function InsertByRawDesc(s: Section, sorted: seq<Section>): (r: seq<Section>)
    ensures |r| == |sorted| + 1
    ensures multiset(r) == multiset(sorted) + multiset{s}
  {
    if sorted == [] then [s]
    else if sorted[0].pointerToRawData <= s.pointerToRawData then [s] + sorted
    else
      assert sorted == [sorted[0]] + sorted[1..];
      [sorted[0]] + InsertByRawDesc(s, sorted[1..])
  }

  /** `sorted(sections, key=lambda s: -s.PointerToRawData)`: a stable sort by
      descending raw offset. */
  function SortByRawDesc(sections: seq<Section>): (r: seq<Section>)
    ensures |r| == |sections|
    ensures multiset(r) == multiset(sections)
  {
    if sections == [] then []
    else
      assert sections == [sections[0]] + sections[1..];
      InsertByRawDesc(sections[0], SortByRawDesc(sections[1..]))
  }

  ghost predicate DescendingByRaw(s: seq<Section>)
  {
    forall i, j :: 0 <= i < j < |s| ==> s[i].pointerToRawData >= s[j].pointerToRawData
  }

  lemma ConsDescending(x: Section, t: seq<Section>)
    requires DescendingByRaw(t) && (t != [] ==> x.pointerToRawData >= t[0].pointerToRawData)
    ensures DescendingByRaw([x] + t)
  {
    var r := [x] + t;
    forall i, j | 0 <= i < j < |r|
      ensures r[i].pointerToRawData >= r[j].pointerToRawData
    {
      if i == 0 {
        assert r[j] == t[j - 1];
        assert t[0].pointerToRawData >= t[j - 1].pointerToRawData;
      } else {
        assert r[i] == t[i - 1] && r[j] == t[j - 1];
      }
    }
  }

  lemma {:induction false} InsertKeepsDescending(s: Section, sorted: seq<Section>)
    requires DescendingByRaw(sorted)
    ensures DescendingByRaw(InsertByRawDesc(s, sorted))
    ensures InsertByRawDesc(s, sorted)[0] == s || InsertByRawDesc(s, sorted)[0] == sorted[0]
    decreases |sorted|
  {
    if sorted == [] {
    } else if sorted[0].pointerToRawData <= s.pointerToRawData {
      ConsDescending(s, sorted);
    } else {
      var t := sorted[1..];
      InsertKeepsDescending(s, t);
      var r' := InsertByRawDesc(s, t);
      assert t != [] ==> sorted[0].pointerToRawData >= t[0].pointerToRawData;
      ConsDescending(sorted[0], r');
    }
  }

  /** The sort puts the sections in descending raw-offset order. */
  lemma {:induction false} SortByRawDescSorted(sections: seq<Section>)
    ensures DescendingByRaw(SortByRawDesc(sections))
  {
    if sections != [] {
      SortByRawDescSorted(sections[1..]);
      InsertKeepsDescending(sections[0], SortByRawDesc(sections[1..]));
    }
  }

  /** The largest section end, starting from 0 (the initial `appended_offset`). */
  function MaxEnd(sections: seq<Section>): int
  {
    if sections == [] then 0
    else
      var m := MaxEnd(sections[..|sections| - 1]);
      var e := EndOf(sections[|sections| - 1]);
      if e > m then e else m
  }

  lemma MaxEndStep(s: seq<Section>, n: nat)
    requires n < |s|
    ensures MaxEnd(s[..n + 1]) == if EndOf(s[n]) > MaxEnd(s[..n]) then EndOf(s[n]) else MaxEnd(s[..n])
  {
    assert s[..n + 1][..n] == s[..n];
  }

  /** MaxEnd bounds every end and is either 0 or some section's end. */
  lemma {:induction false} MaxEndIsMax(sections: seq<Section>)
    ensures MaxEnd(sections) >= 0
    ensures forall s :: s in sections ==> EndOf(s) <= MaxEnd(sections)
    ensures MaxEnd(sections) == 0 || exists s :: s in sections && EndOf(s) == MaxEnd(sections)
  {
    if sections != [] {
      var init := sections[..|sections| - 1];
      MaxEndIsMax(init);
      assert sections == init + [sections[|sections| - 1]];
    }
  }

  /** MaxEnd does not depend on the order of the sections. */
  lemma MaxEndPermutation(a: seq<Section>, b: seq<Section>)
    requires multiset(a) == multiset(b)
    ensures MaxEnd(a) == MaxEnd(b)
  {
    MaxEndIsMax(a);
    MaxEndIsMax(b);
    forall s | s in a ensures s in b {
      assert s in multiset(a);
    }
    forall s | s in b ensures s in a {
      assert s in multiset(b);
    }
  }

  predicate NulFree(s: string)
  {
    forall i :: 0 <= i < |s| ==> s[i] != '\0'
  }

  predicate AllNul(s: string)
  {
    forall i :: 0 <= i < |s| ==> s[i] == '\0'
  }

  /** Length of the longest NUL-free prefix. */
  function NulFreePrefixLen(s: string): (p: nat)
    ensures p <= |s| && (p < |s| ==> s[p] == '\0')
    ensures forall i :: 0 <= i < p ==> s[i] != '\0'
  {
    if s == [] || s[0] == '\0' then 0
    else
      1 + NulFreePrefixLen(s[1..])
  }

  /** The name kept by `re.match(r'([^\x00]*)\x00*$', name)`: the NUL-free
      prefix when the rest of the name is NULs, optionally followed by one final
      newline (which `$` lets through); otherwise the name unchanged. */
  function StripNulPadding(name: string): (r: string)
    ensures |r| <= |name| && r == name[..|r|]
    ensures r == name || NulFree(r)
    ensures r != name ==> |r| < |name| &&
                          (AllNul(name[|r|..]) || (name[|name| - 1] == '\n' && AllNul(name[|r|..|name| - 1])))
  {
    var p := NulFreePrefixLen(name);
    var rest := name[p..];
    if AllNul(rest) then name[..p]
    else if |rest| > 0 && rest[|rest| - 1] == '\n' && AllNul(rest[..|rest| - 1]) then
      assert name[p..|name| - 1] == rest[..|rest| - 1];
      name[..p]
    else name
  }

  /** A NUL-free name padded with NULs (and possibly a final newline after the
      padding) is cut back to the name. */
  lemma StripPadded(p: string, z: string)
    requires NulFree(p) && AllNul(z)
    ensures StripNulPadding(p + z) == p
    ensures |z| > 0 ==> StripNulPadding(p + z + "\n") == p
  {
    PrefixLenOf(p, z);
    assert (p + z)[|p|..] == z;
    if |z| > 0 {
      PrefixLenOf(p, z + "\n");
      assert p + z + "\n" == p + (z + "\n");
      assert (p + (z + "\n"))[|p|..] == z + "\n";
      assert (z + "\n")[..|z|] == z;
    }
  }

  lemma {:induction false} PrefixLenOf(p: string, t: string)
    requires NulFree(p) && (t == [] || t[0] == '\0')
    ensures NulFreePrefixLen(p + t) == |p|
    decreases |p|
  {
    if p != [] {
      assert (p + t)[1..] == p[1..] + t;
      PrefixLenOf(p[1..], t);
    } else {
      assert p + t == t;
    }
  }

  /** A name with something other than NULs (and one final newline) after its
      first NUL is kept as it is. */
  lemma StripKeepsOther(name: string, i: nat, j: nat)
    requires i < j < |name| && name[i] == '\0' && name[j] != '\0'
    requires !(j == |name| - 1 && name[j] == '\n')
    ensures StripNulPadding(name) == name
  {
    var p := NulFreePrefixLen(name);
    assert p <= i;
    var rest := name[p..];
    assert rest[j - p] == name[j];
    if |rest| > 0 && rest[|rest| - 1] == '\n' {
      assert j - p < |rest| - 1;
      assert rest[..|rest| - 1][j - p] == name[j];
    }
  }

  function DigitChar(d: nat): char
    requires d < 10
  {
    ('0' as int + d) as char
  }

  /** Decimal representation, as `'%d' % k` formats a non-negative integer. */
  function Decimal(k: nat): (r: string)
    ensures |r| > 0
    ensures forall i :: 0 <= i < |r| ==> '0' <= r[i] <= '9'
  {
    if k < 10 then [DigitChar(k)] else Decimal(k / 10) + [DigitChar(k % 10)]
  }

  /** The number a string of decimal digits denotes. */
  function DecimalValue(s: string): nat
    requires forall i :: 0 <= i < |s| ==> '0' <= s[i] <= '9'
  {
    if s == [] then 0 else 10 * DecimalValue(s[..|s| - 1]) + (s[|s| - 1] - '0') as nat
  }

  /** Reading the decimal representation back gives the number, so distinct
      positions get distinct fallback names. */
  lemma {:induction false} DecimalRoundTrip(k: nat)
    ensures DecimalValue(Decimal(k)) == k
  {
    if k >= 10 {
      var q, d := k / 10, k % 10;
      DecimalRoundTrip(q);
      var r := Decimal(k);
      assert r == Decimal(q) + [DigitChar(d)];
      assert r[..|r| - 1] == Decimal(q);
      assert (r[|r| - 1] - '0') as nat == d;
    }
  }

  /** The name of the section at position n of the sorted table of nsec
      sections: its stripped name, or `sec_<nsec-n>` when that is empty. */
  function SectionLabel(name: string, number: nat): string
  {
    var stripped := StripNulPadding(name);
    if stripped == "" then "sec_" + Decimal(number) else stripped
  }

  /** A section's label is never empty: a name with something left after
      stripping keeps that, an empty one falls back to `sec_<number>`, and two
      sections that both fall back get distinct labels when their numbers
      differ. */
  lemma SectionLabelCases(name: string, number: nat, name': string, number': nat)
    ensures SectionLabel(name, number) != ""
    ensures StripNulPadding(name) != "" ==> SectionLabel(name, number) == StripNulPadding(name)
    ensures StripNulPadding(name) == "" ==> SectionLabel(name, number) == "sec_" + Decimal(number)
    ensures StripNulPadding(name) == "" && StripNulPadding(name') == "" && number != number' ==>
              SectionLabel(name, number) != SectionLabel(name', number')
  {
    if StripNulPadding(name) == "" && StripNulPadding(name') == "" && SectionLabel(name, number) == SectionLabel(name', number') {
      var p := "sec_";
      assert Decimal(number) == (p + Decimal(number))[|p|..];
      assert Decimal(number') == (p + Decimal(number'))[|p|..];
      DecimalRoundTrip(number);
      DecimalRoundTrip(number');
    }
  }

  /** The boundary drawn for a section that is numbered `number` in the table. */
  function SectionBoundary(s: Section, number: nat): Boundary
  {
    Boundary(SectionLabel(s.name, number), s.pointerToRawData, EndOf(s))
  }

  /** The boundaries so far are those of the first n sorted sections, numbered from nsec down. */
  ghost predicate BoundariesOf(boundaries: seq<Boundary>, sorted: seq<Section>, n: nat, nsec: nat)
  {
    n <= |sorted| <= nsec && |boundaries| == n &&
    forall k :: 0 <= k < n ==> boundaries[k] == SectionBoundary(sorted[k], nsec - k)
  }

  lemma BoundariesStep(boundaries: seq<Boundary>, sorted: seq<Section>, n: nat, nsec: nat, name: string, end: int)
    requires n < |sorted| && BoundariesOf(boundaries, sorted, n, nsec)
    requires name == SectionLabel(sorted[n].name, nsec - n) && end == EndOf(sorted[n])
    ensures BoundariesOf(boundaries + [Boundary(name, sorted[n].pointerToRawData, end)], sorted, n + 1, nsec)
  {
  }

  /** Appending after the section boundaries leaves them in place. */
  lemma BoundariesExtend(boundaries: seq<Boundary>, sorted: seq<Section>, nsec: nat, b: Boundary)
    requires BoundariesOf(boundaries, sorted, |sorted|, nsec)
    ensures forall n :: 0 <= n < |sorted| ==> (boundaries + [b])[n] == SectionBoundary(sorted[n], nsec - n)
  {
  }

  /** The loop of `_get_boundaries` over the sorted sections: one boundary per
      section, named by its position counted down from nsec, while
      `appended_offset` tracks the largest section end. */
  method SectionBoundaries(sorted: seq<Section>, nsec: nat) returns (boundaries: seq<Boundary>, appendedOffset: int)
    requires |sorted| <= nsec
    ensures BoundariesOf(boundaries, sorted, |sorted|, nsec)
    ensures appendedOffset == MaxEnd(sorted)
  {
    boundaries := [];
    appendedOffset := 0;
    var n := 0;
    while n < |sorted|
      invariant 0 <= n <= |sorted|
      invariant appendedOffset == MaxEnd(sorted[..n])
      invariant BoundariesOf(boundaries, sorted, n, nsec)
    {
      var s := sorted[n];
      var name := StripNulPadding(s.name);
      if name == "" {
        name := "sec_" + Decimal(nsec - n);
      }
      assert name == SectionLabel(s.name, nsec - n);
      var end := s.pointerToRawData + s.sizeOfRawData;
      MaxEndStep(sorted, n);
      if end > appendedOffset {
        appendedOffset := end;
      }
      BoundariesStep(boundaries, sorted, n, nsec, name, end);
      boundaries := boundaries + [Boundary(name, s.pointerToRawData, end)];
      n := n + 1;
    }
    assert sorted[..n] == sorted;
  }

  /** `_get_boundaries`: one boundary per section in descending raw-offset
      order, then an `appended` region from the largest section end to the
      file size when the two differ. */
  method GetBoundaries(sections: seq<Section>, filesize: int) returns (boundaries: seq<Boundary>)
    ensures var sorted := SortByRawDesc(sections);
            var nsec := |sections|;
            |boundaries| == nsec + (if MaxEnd(sections) != filesize then 1 else 0) &&
            (forall n :: 0 <= n < nsec ==>
               boundaries[n] == SectionBoundary(sorted[n], nsec - n)) &&
            (MaxEnd(sections) != filesize ==> boundaries[nsec] == Boundary("appended", MaxEnd(sections), filesize))
  {
    var nsec := |sections|;
    var sorted := SortByRawDesc(sections);
    var appendedOffset;
    boundaries, appendedOffset := SectionBoundaries(sorted, nsec);
    MaxEndPermutation(sorted, sections);
    if appendedOffset != filesize {
      var appended := Boundary("appended", appendedOffset, filesize);
      BoundariesExtend(boundaries, sorted, nsec, appended);
      boundaries := boundaries + [appended];
    }
  }

  /** The boundaries come in descending order of their start offsets, and an
      `appended` region never starts before a section ends. */
  lemma BoundariesDescending(sections: seq<Section>, filesize: int, boundaries: seq<Boundary>)
    requires var sorted := SortByRawDesc(sections);
             var nsec := |sections|;
             |boundaries| == nsec + (if MaxEnd(sections) != filesize then 1 else 0) &&
             (forall n :: 0 <= n < nsec ==>
                boundaries[n] == SectionBoundary(sorted[n], nsec - n)) &&
             (MaxEnd(sections) != filesize ==> boundaries[nsec] == Boundary("appended", MaxEnd(sections), filesize))
    ensures forall a, b :: 0 <= a < b < |sections| ==> boundaries[a].offset >= boundaries[b].offset
    ensures forall a :: 0 <= a < |sections| ==> boundaries[a].endOffset == boundaries[a].offset + SortByRawDesc(sections)[a].sizeOfRawData
    ensures |boundaries| > |sections| ==> forall a :: 0 <= a < |sections| ==> boundaries[a].endOffset <= boundaries[|sections|].offset
  {
    var sorted := SortByRawDesc(sections);
    SortByRawDescSorted(sections);
    MaxEndIsMax(sorted);
    MaxEndPermutation(sorted, sections);
    forall a | 0 <= a < |sorted|
      ensures EndOf(sorted[a]) <= MaxEnd(sections)
    {
      assert sorted[a] in sorted;
    }
  }
}
