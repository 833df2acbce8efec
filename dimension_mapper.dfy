/** `labels_to_dimensions`: a sample's labels become at most ten CloudWatch
    dimensions. Labels whose name or value is blank after trimming are dropped,
    the rest are sorted by name, and anything past the tenth is cut off and
    reported. */
module DimensionMapper {
  import opened Text
  import opened Labels

  /** CloudWatch accepts at most this many dimensions per metric datum. */
  const DIMENSION_MAX: nat := 10

  /** The filter of `labels_to_dimensions`: neither the name nor the value is
      empty after `trim`. */
  predicate Qualifies(l: Label) {
    !IsBlank(l.name) && !IsBlank(l.value)
  }

  /** The labels that pass the filter, in the order the label set yields them,
      copied unchanged into dimensions. */
  function Qualifying(labels: seq<Label>): (r: seq<Dimension>)
    ensures |r| <= |labels|
  {
    if labels == [] then []
    else (if Qualifies(labels[0]) then [labels[0]] else []) + Qualifying(labels[1..])
  }

  /** The filter keeps exactly the labels that qualify, unchanged. */
  lemma {:induction false} QualifyingMembers(labels: seq<Label>)
    ensures forall d :: d in Qualifying(labels) <==> d in labels && Qualifies(d)
  {
    if labels != [] {
      QualifyingMembers(labels[1..]);
      assert labels == [labels[0]] + labels[1..];
    }
  }

  /** The collected dimensions after `sort_by` on the name. */
  function SortedQualifying(labels: seq<Label>): seq<Dimension> {
    SortByName(Qualifying(labels))
  }

  /** The dimensions `labels_to_dimensions` returns: the sorted list, cut to its
      first DIMENSION_MAX entries when it is longer. */
  function DimensionsOf(labels: seq<Label>): (dims: seq<Dimension>)
    ensures |dims| <= DIMENSION_MAX
    ensures dims <= SortedQualifying(labels)
  {
    var sorted := SortedQualifying(labels);
    if |sorted| > DIMENSION_MAX then sorted[..DIMENSION_MAX] else sorted
  }

  /** The dimensions `drain(DIMENSION_MAX..)` removes and the warning lists. */
  function DroppedOf(labels: seq<Label>): (dropped: seq<Dimension>)
    ensures DimensionsOf(labels) + dropped == SortedQualifying(labels)
  {
    var sorted := SortedQualifying(labels);
    if |sorted| > DIMENSION_MAX then sorted[DIMENSION_MAX..] else []
  }

  /** `labels_to_dimensions`: collect the qualifying labels into a buffer, sort
      it in place by name, and drain everything past DIMENSION_MAX. Returns the
      kept dimensions and the drained ones, which the source prints as a
      warning. */
  method LabelsToDimensions(labels: seq<Label>) returns (dims: seq<Dimension>, dropped: seq<Dimension>)
    ensures dims == DimensionsOf(labels) && dropped == DroppedOf(labels)
    ensures |dims| <= DIMENSION_MAX && SortedByName(dims)
    ensures forall d :: d in dims ==> d in labels && Qualifies(d)
    ensures dims + dropped == SortedQualifying(labels)
  {
    var collected := Qualifying(labels);
    var buffer := new Dimension[|collected|](i requires 0 <= i < |collected| => collected[i]);
    assert buffer[..] == collected;
    SortByNameInPlace(buffer);
    ghost var sorted := buffer[..];
    assert sorted == SortedQualifying(labels);
    if buffer.Length > DIMENSION_MAX {
      dims, dropped := buffer[..DIMENSION_MAX], buffer[DIMENSION_MAX..];
    } else {
      dims, dropped := buffer[..], [];
    }
    assert dims == DimensionsOf(labels) && dropped == DroppedOf(labels);
    DimensionsWellFormed(labels);
    KeptAndDroppedAreQualifying(labels);
  }

  /** What every call of `labels_to_dimensions` returns: at most ten dimensions,
      ascending by name, each one a label of the input that passed the filter. */
  lemma DimensionsWellFormed(labels: seq<Label>)
    ensures |DimensionsOf(labels)| <= DIMENSION_MAX
    ensures SortedByName(DimensionsOf(labels))
    ensures forall d :: d in DimensionsOf(labels) ==> d in labels && Qualifies(d)
  {
    var sorted := SortedQualifying(labels);
    SortByNameSorted(Qualifying(labels));
    SortByNamePermutes(Qualifying(labels));
    QualifyingMembers(labels);
    forall d | d in DimensionsOf(labels) ensures d in labels && Qualifies(d) {
      assert d in sorted;
      assert d in multiset(Qualifying(labels));
    }
  }

  /** Kept and dropped dimensions together are exactly the qualifying labels:
      none is lost, none is invented, none is altered. */
  lemma {:induction false} KeptAndDroppedAreQualifying(labels: seq<Label>)
    ensures DimensionsOf(labels) + DroppedOf(labels) == SortedQualifying(labels)
    ensures multiset(DimensionsOf(labels) + DroppedOf(labels)) == multiset(Qualifying(labels))
    ensures forall l :: l in DimensionsOf(labels) + DroppedOf(labels) <==> l in labels && Qualifies(l)
  {
    var sorted := SortedQualifying(labels);
    SortByNamePermutes(Qualifying(labels));
    QualifyingMembers(labels);
    if |sorted| > DIMENSION_MAX {
      assert sorted == sorted[..DIMENSION_MAX] + sorted[DIMENSION_MAX..];
    }
    forall l ensures l in DimensionsOf(labels) + DroppedOf(labels) <==> l in labels && Qualifies(l) {
      assert l in sorted <==> l in multiset(Qualifying(labels));
    }
  }

  /** At most ten qualifying labels: all of them become dimensions, nothing is
      dropped. */
  lemma NoTruncationWithinLimit(labels: seq<Label>)
    requires |Qualifying(labels)| <= DIMENSION_MAX
    ensures DimensionsOf(labels) == SortedQualifying(labels)
    ensures |DimensionsOf(labels)| == |Qualifying(labels)|
    ensures multiset(DimensionsOf(labels)) == multiset(Qualifying(labels))
    ensures DroppedOf(labels) == []
  {
    SortByNamePermutes(Qualifying(labels));
  }

  /** More than ten qualifying labels: exactly ten dimensions remain, and no
      dropped dimension has a smaller name than a kept one. */
  lemma TruncationKeepsSmallestNames(labels: seq<Label>)
    requires |Qualifying(labels)| > DIMENSION_MAX
    ensures |DimensionsOf(labels)| == DIMENSION_MAX
    ensures |DroppedOf(labels)| == |Qualifying(labels)| - DIMENSION_MAX
    ensures SortedByName(DroppedOf(labels))
    ensures forall i, j :: 0 <= i < |DimensionsOf(labels)| && 0 <= j < |DroppedOf(labels)| ==>
              LexLe(DimensionsOf(labels)[i].name, DroppedOf(labels)[j].name)
  {
    var sorted := SortedQualifying(labels);
    SortByNameSorted(Qualifying(labels));
    forall i, j | 0 <= i < DIMENSION_MAX && 0 <= j < |sorted| - DIMENSION_MAX
      ensures LexLe(sorted[..DIMENSION_MAX][i].name, sorted[DIMENSION_MAX..][j].name)
    {
      assert sorted[DIMENSION_MAX..][j] == sorted[DIMENSION_MAX + j];
    }
  }

  /** Each label appears among the qualifying ones as often as in the input if it
      passes the filter, and not at all otherwise. */
  lemma {:induction false} QualifyingMultiplicity(labels: seq<Label>, l: Label)
    ensures multiset(Qualifying(labels))[l] == if Qualifies(l) then multiset(labels)[l] else 0
  {
    if labels != [] {
      QualifyingMultiplicity(labels[1..], l);
      assert labels == [labels[0]] + labels[1..];
    }
  }

  /** The label set is a hash map whose iteration order is unspecified; since
      each name has one value there (`UniqueNames`), that order does not change the outcome. */
  lemma LabelOrderIrrelevant(labels: seq<Label>, reordered: seq<Label>)
    requires multiset(labels) == multiset(reordered)
    requires UniqueNames(labels)
    ensures DimensionsOf(labels) == DimensionsOf(reordered)
    ensures DroppedOf(labels) == DroppedOf(reordered)
  {
    var q, q' := Qualifying(labels), Qualifying(reordered);
    forall l ensures multiset(q)[l] == multiset(q')[l] {
      QualifyingMultiplicity(labels, l);
      QualifyingMultiplicity(reordered, l);
    }
    assert multiset(q) == multiset(q');
    var s, s' := SortByName(q), SortByName(q');
    SortByNameSorted(q);
    SortByNameSorted(q');
    SortByNamePermutes(q);
    SortByNamePermutes(q');
    QualifyingMembers(labels);
    forall i, j | 0 <= i < |s| && 0 <= j < |s| && s[i].name == s[j].name ensures s[i] == s[j] {
      assert s[i] in multiset(s) && s[j] in multiset(s);
      assert s[i] in q && s[j] in q;
      assert s[i] in labels && s[j] in labels;
      var k :| 0 <= k < |labels| && labels[k] == s[i];
      var l :| 0 <= l < |labels| && labels[l] == s[j];
    }
    SortedPermutationUnique(s, s');
  }

  /** With every label qualifying, the filter keeps the whole input. */
  lemma {:induction false} QualifyingAll(labels: seq<Label>)
    requires forall i :: 0 <= i < |labels| ==> Qualifies(labels[i])
    ensures Qualifying(labels) == labels
  {
    if labels != [] {
      QualifyingAll(labels[1..]);
      assert labels == [labels[0]] + labels[1..];
    }
  }

  /** A label whose value is blank yields no dimension: the source's first test
      sample `{a="1", b=""}` gives exactly the one dimension `a="1"`, whichever
      of the two entries the label set yields first. */
  lemma BlankValueDropped(a: Label, b: Label)
    requires Qualifies(a) && IsBlank(b.value)
    ensures DimensionsOf([a, b]) == [a] && DroppedOf([a, b]) == []
    ensures DimensionsOf([b, a]) == [a] && DroppedOf([b, a]) == []
  {
    QualifyingPair(a, b);
    QualifyingPair(b, a);
    assert SortByName([a]) == [a] by {
      assert [a][..0] == [];
    }
  }

  /** The filter applied to two labels. */
  lemma QualifyingPair(a: Label, b: Label)
    ensures Qualifying([a, b]) == (if Qualifies(a) then [a] else []) + (if Qualifies(b) then [b] else [])
  {
  }

  /** Decimal text of a natural number. */
  function DecimalText(n: nat): (r: string)
    ensures r != [] && forall i :: 0 <= i < |r| ==> '0' <= r[i] <= '9'
  {
    var digit := [('0' as int + n % 10) as char];
    if n < 10 then digit else DecimalText(n / 10) + digit
  }

  /** The labels `a="1"` to `k="11"` of the source's second test sample. */
  function ElevenLabels(): seq<Label> {
    seq(11, i requires 0 <= i < 11 => Label([('a' as int + i) as char], DecimalText(i + 1)))
  }

  lemma ElevenLabelsQualify()
    ensures Qualifying(ElevenLabels()) == ElevenLabels()
  {
    var eleven := ElevenLabels();
    forall i | 0 <= i < |eleven| ensures Qualifies(eleven[i]) {
      assert !IsWhitespace(eleven[i].name[0]) && !IsWhitespace(eleven[i].value[0]);
    }
    QualifyingAll(eleven);
  }

  lemma ElevenLabelsSorted()
    ensures SortedByName(ElevenLabels())
    ensures UniqueNames(ElevenLabels())
  {
  }

  lemma ElevenLabelsLast()
    ensures ElevenLabels()[DIMENSION_MAX..] == [Label("k", "11")]
  {
    assert DecimalText(11) == "11" by {
      assert DecimalText(1) == "1";
    }
    assert ElevenLabels()[10] == Label("k", "11");
  }

  /** Eleven non-blank labels with distinct names, in whatever order the label
      set yields them, give the ten with the smallest names; `k="11"` is the one
      dropped and reported. */
  lemma ElevenLabelsTruncatedToTen(labels: seq<Label>)
    requires multiset(labels) == multiset(ElevenLabels())
    ensures |DimensionsOf(labels)| == DIMENSION_MAX
    ensures DimensionsOf(labels) == ElevenLabels()[..DIMENSION_MAX]
    ensures DroppedOf(labels) == [Label("k", "11")]
  {
    var eleven := ElevenLabels();
    ElevenLabelsQualify();
    ElevenLabelsSorted();
    ElevenLabelsLast();
    SortByNameOfSorted(eleven);
    LabelOrderIrrelevant(eleven, labels);
  }

  /** Names are not made unique: two qualifying labels sharing a name both
      survive, in the order they are given. A sample's label set is a hash map,
      so the mapper never meets two entries with one name; this settles what
      the mapping itself does with them. */
  lemma DuplicateNamesKept(first: Label, second: Label)
    requires Qualifies(first) && Qualifies(second) && first.name == second.name
    ensures DimensionsOf([first, second]) == [first, second]
  {
    var labels := [first, second];
    QualifyingAll(labels);
    LexLeReflexive(first.name);
    assert SortedByName(labels);
    SortByNameOfSorted(labels);
  }
}
