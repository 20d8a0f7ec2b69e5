/**
 * FeatureMappingModel: rewriting a request into query terms by projecting its feature vectors into the feature
 * spaces of the documents, and the executor that searches with the rewritten query.
 */
module FeatureMapping {
  import opened Postings
  import opened BaseIndex
  import opened Manager
  import Spec = RowSpec
  import RowIndex

  // ----- Feature spaces -------------------------------------------------------------------------------

  // A feature id has 64 bits: 8 for the space above 56 for the feature.
  const FEATURE_SPAN: nat := 0x100_0000_0000_0000
  const SPACES: nat := 0x100

  /** The feature bits of an id under another space; the shift drops all but 8 bits of the space. */
  function Project(id: TermId, space: nat): TermId {
    id % FEATURE_SPAN + space % SPACES * FEATURE_SPAN
  }

  function SpacePart(id: TermId): nat {
    id / FEATURE_SPAN % SPACES
  }

  function FeaturePart(id: TermId): nat {
    id % FEATURE_SPAN
  }

  /** The lowest byte of a 64-bit word. */
  function LowByte(x: bv64): (r: nat)
    ensures r < 0x100
  {
    ((x & 0xFF) as bv8) as nat
  }

  /** Byte k of a 64-bit word, from the lowest. */
  function ByteAt(x: bv64, k: nat): (r: nat)
    ensures r < 0x100
  {
    match k
    case 0 => LowByte(x)
    case 1 => LowByte(x >> 8)
    case 2 => LowByte(x >> 16)
    case 3 => LowByte(x >> 24)
    case 4 => LowByte(x >> 32)
    case 5 => LowByte(x >> 40)
    case 6 => LowByte(x >> 48)
    case _ => LowByte(x >> 56)
  }

  /** The number a 64-bit word stands for. */
  function Number(x: bv64): nat {
    ByteAt(x, 0) + 0x100 * ByteAt(x, 1) + 0x1_0000 * ByteAt(x, 2) + 0x100_0000 * ByteAt(x, 3)
    + 0x1_0000_0000 * ByteAt(x, 4) + 0x100_0000_0000 * ByteAt(x, 5) + 0x1_0000_0000_0000 * ByteAt(x, 6)
    + 0x100_0000_0000_0000 * ByteAt(x, 7)
  }

  const FEATURE_MASK: bv64 := 0x00FF_FFFF_FFFF_FFFF
  const SPACE_MASK: bv64 := 0xFF00_0000_0000_0000

  /** project_to_space on 64-bit words. */
  function ProjectWord(id: bv64, space: bv64): bv64 {
    (id & FEATURE_MASK) | (space << 56)
  }

  function SpaceWord(id: bv64): bv64 {
    (id & SPACE_MASK) >> 56
  }

  // The masks and the shifts move whole bytes.

  lemma Byte0(id: bv64, space: bv64)
    ensures ByteAt(ProjectWord(id, space), 0) == ByteAt(id, 0)
  {
    assert ProjectWord(id, space) & 0xFF == id & 0xFF;
  }

  lemma Byte1(id: bv64, space: bv64)
    ensures ByteAt(ProjectWord(id, space), 1) == ByteAt(id, 1)
  {
    assert (ProjectWord(id, space) >> 8) & 0xFF == (id >> 8) & 0xFF;
  }

  lemma Byte2(id: bv64, space: bv64)
    ensures ByteAt(ProjectWord(id, space), 2) == ByteAt(id, 2)
  {
    assert (ProjectWord(id, space) >> 16) & 0xFF == (id >> 16) & 0xFF;
  }

  lemma Byte3(id: bv64, space: bv64)
    ensures ByteAt(ProjectWord(id, space), 3) == ByteAt(id, 3)
  {
    assert (ProjectWord(id, space) >> 24) & 0xFF == (id >> 24) & 0xFF;
  }

  lemma Byte4(id: bv64, space: bv64)
    ensures ByteAt(ProjectWord(id, space), 4) == ByteAt(id, 4)
  {
    assert (ProjectWord(id, space) >> 32) & 0xFF == (id >> 32) & 0xFF;
  }

  lemma Byte5(id: bv64, space: bv64)
    ensures ByteAt(ProjectWord(id, space), 5) == ByteAt(id, 5)
  {
    assert (ProjectWord(id, space) >> 40) & 0xFF == (id >> 40) & 0xFF;
  }

  lemma Byte6(id: bv64, space: bv64)
    ensures ByteAt(ProjectWord(id, space), 6) == ByteAt(id, 6)
  {
    assert (ProjectWord(id, space) >> 48) & 0xFF == (id >> 48) & 0xFF;
  }

  lemma Byte7(id: bv64, space: bv64)
    ensures ByteAt(ProjectWord(id, space), 7) == ByteAt(space, 0)
  {
    assert (ProjectWord(id, space) >> 56) & 0xFF == space & 0xFF;
  }

  lemma SpaceByte(id: bv64, k: nat)
    requires k < 8
    ensures ByteAt(SpaceWord(id), k) == if k == 0 then ByteAt(id, 7) else 0
  {
    var y := SpaceWord(id);
    if k == 0 {
      assert y & 0xFF == (id >> 56) & 0xFF;
    } else {
      assert y >> 8 == 0 && y >> 16 == 0 && y >> 24 == 0 && y >> 32 == 0;
      assert y >> 40 == 0 && y >> 48 == 0 && y >> 56 == 0;
    }
  }

  /** A number is made of its seven feature bytes below its space byte. */
  lemma NumberParts(x: bv64)
    ensures SpacePart(Number(x)) == ByteAt(x, 7) && Number(x) % SPACES == ByteAt(x, 0)
    ensures FeaturePart(Number(x)) == Number(x) - FEATURE_SPAN * ByteAt(x, 7)
  {
    hide ByteAt;
  }

  /** Projecting a word, and taking its parts, is what the arithmetic above does to its number. */
  lemma WordsAreNumbers(id: bv64, space: bv64)
    ensures Number(ProjectWord(id, space)) == Project(Number(id), Number(space))
    ensures Number(SpaceWord(id)) == SpacePart(Number(id))
    ensures Number(ProjectWord(id, 0)) == FeaturePart(Number(id)) && ProjectWord(id, 0) == id & FEATURE_MASK
  {
    hide ByteAt, ProjectWord, SpaceWord;
    ProjectNumber(id, space);
    ProjectNumber(id, 0);
    SpaceNumber(id);
    ZeroNumber();
    MaskOnly(id);
  }

  lemma ProjectNumber(id: bv64, space: bv64)
    ensures Number(ProjectWord(id, space)) == Project(Number(id), Number(space))
  {
    hide ByteAt, ProjectWord;
    Byte0(id, space);
    Byte1(id, space);
    Byte2(id, space);
    Byte3(id, space);
    Byte4(id, space);
    Byte5(id, space);
    Byte6(id, space);
    Byte7(id, space);
    NumberParts(id);
    NumberParts(space);
  }

  lemma SpaceNumber(id: bv64)
    ensures Number(SpaceWord(id)) == SpacePart(Number(id))
  {
    hide ByteAt, SpaceWord;
    forall k: nat | k < 8 ensures ByteAt(SpaceWord(id), k) == if k == 0 then ByteAt(id, 7) else 0 {
      SpaceByte(id, k);
    }
    NumberParts(id);
  }

  lemma ZeroNumber()
    ensures Number(0) == 0
  {
  }

  lemma MaskOnly(id: bv64)
    ensures ProjectWord(id, 0) == id & FEATURE_MASK
  {
  }

  /** Projection replaces the space, keeps the feature, and an id is made of nothing else. */
  lemma ProjectParts(id: TermId, space: nat, other: nat)
    ensures FeaturePart(Project(id, space)) == FeaturePart(id)
    ensures SpacePart(Project(id, space)) == space <==> space < SPACES
    ensures Project(id, space) < SPACES * FEATURE_SPAN
    ensures id < SPACES * FEATURE_SPAN ==> Project(id, SpacePart(id)) == id
    ensures Project(Project(id, other), space) == Project(id, space)
  {
  }

  /** Two ids collide in a space exactly when they agree on the feature bits. */
  lemma ProjectCollides(a: TermId, b: TermId, space: nat)
    ensures Project(a, space) == Project(b, space) <==> FeaturePart(a) == FeaturePart(b)
  {
  }

  // ----- What a request means -----------------------------------------------------------------------------

  type Features = seq<(TermId, real)>

  datatype FeatureVector = FeatureVector(space: nat, features: Features)

  datatype Mapping = Mapping(from: nat, to: nat, weight: real)

  /** The dot product of a feature vector, projected to a space, with a document. */
  function ProjectedDot(features: Features, to: nat, rows: Spec.Rows, d: DocId): real {
    if |features| == 0 then 0.0
    else
      var f := features[|features| - 1];
      ProjectedDot(features[..|features| - 1], to, rows, d) + DocWeight(rows, d, Project(f.0, to)) * f.1
  }

  /** The mappings of a feature space; equal_range of the multimap. */
  function Range(mappings: seq<Mapping>, space: nat): seq<Mapping> {
    if |mappings| == 0 then []
    else
      var m := mappings[|mappings| - 1];
      Range(mappings[..|mappings| - 1], space) + if m.from == space then [m] else []
  }

  /** Exactly the mappings from that space, each as often as it was set. */
  lemma {:induction false} RangeIs(mappings: seq<Mapping>, space: nat, m: Mapping)
    ensures multiset(Range(mappings, space))[m] == if m.from == space then multiset(mappings)[m] else 0
  {
    if |mappings| > 0 {
      var front, last := mappings[..|mappings| - 1], mappings[|mappings| - 1];
      RangeIs(front, space, m);
      assert mappings == front + [last];
      OneMore(front, last, m);
      OneMore(Range(front, space), last, m);
    }
  }

  lemma OneMore(s: seq<Mapping>, x: Mapping, m: Mapping)
    ensures multiset(s + [x])[m] == multiset(s)[m] + if x == m then 1 else 0
  {
  }

  /** One mapping; only a positive weight counts. */
  function OneMapped(m: Mapping, features: Features, rows: Spec.Rows, d: DocId): real {
    if m.weight > 0.0 then m.weight * ProjectedDot(features, m.to, rows, d) else 0.0
  }

  /** What a feature vector scores through its mappings; only positive weights count. */
  function MappedDot(range: seq<Mapping>, features: Features, rows: Spec.Rows, d: DocId): real {
    if |range| == 0 then 0.0
    else
      MappedDot(range[..|range| - 1], features, rows, d) + OneMapped(range[|range| - 1], features, rows, d)
  }

  /** The score of a document: over all vectors and all their mappings. */
  function Meaning(vectors: seq<FeatureVector>, mappings: seq<Mapping>, rows: Spec.Rows, d: DocId): real {
    if |vectors| == 0 then 0.0
    else
      var v := vectors[|vectors| - 1];
      Meaning(vectors[..|vectors| - 1], mappings, rows, d) + MappedDot(Range(mappings, v.space), v.features, rows, d)
  }

  /** The meaning of one feature under one mapping. */
  lemma OneFeature(space: nat, f: TermId, x: real, from: nat, to: nat, w: real, rows: Spec.Rows, d: DocId)
    ensures Meaning([FeatureVector(space, [(f, x)])], [Mapping(from, to, w)], rows, d) ==
            if from == space && w > 0.0 then w * (DocWeight(rows, d, Project(f, to)) * x) else 0.0
  {
    hide DocWeight, Project;
    var features, m := [(f, x)], Mapping(from, to, w);
    assert features[..0] == [] && [m][..0] == [] && [FeatureVector(space, features)][..0] == [];
    assert ProjectedDot(features, to, rows, d) == DocWeight(rows, d, Project(f, to)) * x;
    assert Range([m], space) == if from == space then [m] else [];
    assert MappedDot([], features, rows, d) == 0.0;
    assert MappedDot([m], features, rows, d) ==
           if w > 0.0 then w * (DocWeight(rows, d, Project(f, to)) * x) else 0.0;
    assert Meaning([], [m], rows, d) == 0.0;
  }

  /** Vectors add up. */
  lemma {:induction false} VectorsAdd(
    a: seq<FeatureVector>, b: seq<FeatureVector>, mappings: seq<Mapping>, rows: Spec.Rows, d: DocId)
    ensures Meaning([], mappings, rows, d) == 0.0
    ensures Meaning(a + b, mappings, rows, d) == Meaning(a, mappings, rows, d) + Meaning(b, mappings, rows, d)
  {
    hide MappedDot, Range;
    if |b| == 0 {
      assert a + b == a;
    } else {
      VectorsAdd(a, b[..|b| - 1], mappings, rows, d);
      assert (a + b)[..|a + b| - 1] == a + b[..|b| - 1];
    }
  }

  lemma {:induction false} RangeAdds(a: seq<Mapping>, b: seq<Mapping>, space: nat)
    ensures Range(a + b, space) == Range(a, space) + Range(b, space)
  {
    if |b| == 0 {
      assert a + b == a;
    } else {
      RangeAdds(a, b[..|b| - 1], space);
      assert (a + b)[..|a + b| - 1] == a + b[..|b| - 1];
    }
  }

  lemma {:induction false} MappedAdds(a: seq<Mapping>, b: seq<Mapping>, features: Features, rows: Spec.Rows, d: DocId)
    ensures MappedDot(a + b, features, rows, d) == MappedDot(a, features, rows, d) + MappedDot(b, features, rows, d)
  {
    hide OneMapped;
    if |b| == 0 {
      assert a + b == a;
    } else {
      MappedAdds(a, b[..|b| - 1], features, rows, d);
      assert (a + b)[..|a + b| - 1] == a + b[..|b| - 1] && (a + b)[|a + b| - 1] == b[|b| - 1];
    }
  }

  /** Mappings add up. */
  lemma {:induction false} MappingsAdd(
    vectors: seq<FeatureVector>, a: seq<Mapping>, b: seq<Mapping>, rows: Spec.Rows, d: DocId)
    ensures Meaning(vectors, [], rows, d) == 0.0
    ensures Meaning(vectors, a + b, rows, d) == Meaning(vectors, a, rows, d) + Meaning(vectors, b, rows, d)
  {
    if |vectors| > 0 {
      var v := vectors[|vectors| - 1];
      MappingsAdd(vectors[..|vectors| - 1], a, b, rows, d);
      RangeAdds(a, b, v.space);
      MappedAdds(Range(a, v.space), Range(b, v.space), v.features, rows, d);
    }
  }

  lemma {:induction false} ProjectedAdds(f: Features, g: Features, to: nat, rows: Spec.Rows, d: DocId)
    ensures ProjectedDot(f + g, to, rows, d) == ProjectedDot(f, to, rows, d) + ProjectedDot(g, to, rows, d)
  {
    hide DocWeight, Project;
    if |g| == 0 {
      assert f + g == f;
    } else {
      ProjectedAdds(f, g[..|g| - 1], to, rows, d);
      assert (f + g)[..|f + g| - 1] == f + g[..|g| - 1];
    }
  }

  lemma OneMappedAdds(m: Mapping, f: Features, g: Features, rows: Spec.Rows, d: DocId)
    ensures OneMapped(m, f + g, rows, d) == OneMapped(m, f, rows, d) + OneMapped(m, g, rows, d)
  {
    hide ProjectedDot;
    ProjectedAdds(f, g, m.to, rows, d);
  }

  lemma {:induction false} MappedFeaturesAdd(range: seq<Mapping>, f: Features, g: Features, rows: Spec.Rows, d: DocId)
    ensures MappedDot(range, f + g, rows, d) == MappedDot(range, f, rows, d) + MappedDot(range, g, rows, d)
  {
    hide OneMapped;
    if |range| > 0 {
      MappedFeaturesAdd(range[..|range| - 1], f, g, rows, d);
      OneMappedAdds(range[|range| - 1], f, g, rows, d);
    }
  }

  /** The features of a vector add up. */
  lemma FeaturesAdd(space: nat, f: Features, g: Features, mappings: seq<Mapping>, rows: Spec.Rows, d: DocId)
    ensures Meaning([FeatureVector(space, f + g)], mappings, rows, d) ==
            Meaning([FeatureVector(space, f)], mappings, rows, d) +
            Meaning([FeatureVector(space, g)], mappings, rows, d)
  {
    MappedFeaturesAdd(Range(mappings, space), f, g, rows, d);
  }

  // ----- Terms merged in a map ------------------------------------------------------------------------------

  /** The entries of the term map by ascending id. */
  function Listing(terms: map<TermId, real>): (r: seq<QueryTerm>)
  {
    var s := InKeyOrder(terms);
    seq(|s|, k requires 0 <= k < |s| => QueryTerm(s[k].doc, s[k].weight))
  }

  function MapDot(terms: map<TermId, real>, rows: Spec.Rows, d: DocId): real {
    Dot(Listing(terms), rows, d)
  }

  lemma MapDotGreatest(terms: map<TermId, real>, rows: Spec.Rows, d: DocId)
    requires terms != map[]
    ensures var k := Greatest(terms.Keys);
            MapDot(terms, rows, d) == MapDot(terms - {k}, rows, d) + DocWeight(rows, d, k) * terms[k]
  {
    var k := Greatest(terms.Keys);
    var all, rest := Listing(terms), Listing(terms - {k});
    assert all[..|all| - 1] == rest;
  }

  /** Every entry contributes its own product, wherever it stands. */
  lemma {:induction false} MapDotSplit(terms: map<TermId, real>, t: TermId, rows: Spec.Rows, d: DocId)
    requires t in terms
    ensures MapDot(terms, rows, d) == MapDot(terms - {t}, rows, d) + DocWeight(rows, d, t) * terms[t]
    decreases |terms|
  {
    hide MapDot, DocWeight;
    var k := Greatest(terms.Keys);
    MapDotGreatest(terms, rows, d);
    if k != t {
      RemoveKey(terms, k);
      MapDotSplit(terms - {k}, t, rows, d);
      var less := terms - {t};
      assert k in less && less.Keys <= terms.Keys;
      assert Greatest(less.Keys) == k;
      MapDotGreatest(less, rows, d);
      assert less - {k} == terms - {k} - {t};
    }
  }

  /** Adding to an entry of the map adds to the score: merging collisions changes nothing. */
  lemma MapDotAdd(terms: map<TermId, real>, t: TermId, s: real, rows: Spec.Rows, d: DocId)
    ensures MapDot(Added(terms, t, s), rows, d) == MapDot(terms, rows, d) + DocWeight(rows, d, t) * s
  {
    hide MapDot, DocWeight;
    var more := Added(terms, t, s);
    MapDotSplit(more, t, rows, d);
    assert more - {t} == terms - {t};
    if t in terms {
      MapDotSplit(terms, t, rows, d);
    } else {
      assert terms - {t} == terms;
    }
  }

  /** Emplace, or add to what is there. */
  function Added(terms: map<TermId, real>, t: TermId, s: real): map<TermId, real> {
    terms[t := if t in terms then terms[t] + s else s]
  }

  // ----- The rewrite ----------------------------------------------------------------------------------------

  predicate NonNegativeFeatures(features: Features) {
    forall k :: 0 <= k < |features| ==> features[k].1 >= 0.0
  }

  predicate NonNegativeTerms(terms: map<TermId, real>) {
    forall t :: t in terms ==> terms[t] >= 0.0
  }

  /** Merge one projected vector into the terms. */
  method AddFeatures(terms: map<TermId, real>, features: Features, to: nat, weight: real)
    returns (more: map<TermId, real>)
    requires weight > 0.0
    ensures forall rows, d ::
              MapDot(more, rows, d) == MapDot(terms, rows, d) + weight * ProjectedDot(features, to, rows, d)
    ensures NonNegativeTerms(terms) && NonNegativeFeatures(features) ==> NonNegativeTerms(more)
  {
    hide MapDot, DocWeight, Project;
    more := terms;
    var i := 0;
    while i < |features|
      invariant 0 <= i <= |features|
      invariant forall rows, d :: MapDot(more, rows, d) ==
                                  MapDot(terms, rows, d) + weight * ProjectedDot(features[..i], to, rows, d)
      invariant NonNegativeTerms(terms) && NonNegativeFeatures(features) ==> NonNegativeTerms(more)
    {
      var id := Project(features[i].0, to);
      var s := features[i].1 * weight;
      assert features[..i + 1][..i] == features[..i];
      forall rows, d
        ensures MapDot(Added(more, id, s), rows, d) ==
                MapDot(terms, rows, d) + weight * ProjectedDot(features[..i + 1], to, rows, d)
      {
        MapDotAdd(more, id, s, rows, d);
        Distribute(weight, ProjectedDot(features[..i], to, rows, d), DocWeight(rows, d, id), features[i].1);
      }
      more := Added(more, id, s);
      i := i + 1;
    }
    assert features[..i] == features;
  }

  lemma Distribute(w: real, a: real, x: real, y: real)
    ensures w * (a + x * y) == w * a + x * (y * w)
  {
  }

  /** Merge one vector through all its mappings. */
  method AddMapped(terms: map<TermId, real>, range: seq<Mapping>, features: Features)
    returns (more: map<TermId, real>)
    ensures forall rows, d :: MapDot(more, rows, d) == MapDot(terms, rows, d) + MappedDot(range, features, rows, d)
    ensures NonNegativeTerms(terms) && NonNegativeFeatures(features) ==> NonNegativeTerms(more)
  {
    hide MapDot, ProjectedDot, NonNegativeTerms;
    more := terms;
    var i := 0;
    while i < |range|
      invariant 0 <= i <= |range|
      invariant forall rows, d ::
                  MapDot(more, rows, d) == MapDot(terms, rows, d) + MappedDot(range[..i], features, rows, d)
      invariant NonNegativeTerms(terms) && NonNegativeFeatures(features) ==> NonNegativeTerms(more)
    {
      assert range[..i + 1][..i] == range[..i];
      if range[i].weight > 0.0 {
        more := AddFeatures(more, features, range[i].to, range[i].weight);
      }
      i := i + 1;
    }
    assert range[..i] == range;
  }

  /**
   * The rewritten query scores every document as the request means it: the weighted sum, over all vectors
   * and all their mappings of positive weight, of the projected dot products. Non-negative requests
   * give non-negative queries.
   */
  method Process(vectors: seq<FeatureVector>, mappings: seq<Mapping>) returns (queries: seq<QueryTerm>)
    ensures forall rows, d :: Dot(queries, rows, d) == Meaning(vectors, mappings, rows, d)
    ensures forall i, j :: 0 <= i < j < |queries| ==> queries[i].term < queries[j].term
    ensures (forall k :: 0 <= k < |vectors| ==> NonNegativeFeatures(vectors[k].features)) ==> NonNegative(queries)
  {
    hide MappedDot, Dot, NonNegativeTerms, NonNegativeFeatures, Listing, Range;
    var terms: map<TermId, real> := map[];
    NoTerms();
    var i := 0;
    while i < |vectors|
      invariant 0 <= i <= |vectors|
      invariant forall rows, d :: MapDot(terms, rows, d) == Meaning(vectors[..i], mappings, rows, d)
      invariant (forall k :: 0 <= k < |vectors| ==> NonNegativeFeatures(vectors[k].features))
                ==> NonNegativeTerms(terms)
    {
      assert vectors[..i + 1][..i] == vectors[..i];
      terms := AddMapped(terms, Range(mappings, vectors[i].space), vectors[i].features);
      i := i + 1;
    }
    assert vectors[..i] == vectors;
    queries := Listing(terms);
    ListingIs(terms);
    assert forall rows, d :: Dot(queries, rows, d) == MapDot(terms, rows, d);
  }

  lemma NoTerms()
    ensures NonNegativeTerms(map[]) && forall rows, d :: MapDot(map[], rows, d) == 0.0
  {
  }

  lemma {:induction false} ListingIs(terms: map<TermId, real>)
    ensures forall i, j :: 0 <= i < j < |Listing(terms)| ==> Listing(terms)[i].term < Listing(terms)[j].term
    ensures forall i :: 0 <= i < |Listing(terms)| ==>
              Listing(terms)[i].term in terms && Listing(terms)[i].weight == terms[Listing(terms)[i].term]
    ensures NonNegativeTerms(terms) ==> NonNegative(Listing(terms))
    decreases |terms|
  {
    if terms.Keys != {} {
      var k := Greatest(terms.Keys);
      RemoveKey(terms, k);
      var all, rest := Listing(terms), Listing(terms - {k});
      ListingIs(terms - {k});
      assert |all| == |rest| + 1 && forall i :: 0 <= i < |rest| ==> all[i] == rest[i];
      assert all[|rest|] == QueryTerm(k, terms[k]);
    }
  }

  /**
   * SimpleQueryExecutor: rewrite the request, search, and answer for the request's own meaning over the rows as of
   * the last apply, whatever other threads do while the results are read.
   */
  method Execute(rows: RowIndex.Rows, vectors: seq<FeatureVector>, mappings: seq<Mapping>, count: nat,
                 batches: seq<seq<Spec.Op>>)
    returns (results: seq<Posting>, queries: seq<QueryTerm>, ghost trace: seq<Spec.State>)
    requires rows.Valid() && forall k :: 0 <= k < |vectors| ==> NonNegativeFeatures(vectors[k].features)
    modifies rows, rows.index, rows.expire, rows.index.private
    ensures rows.Valid() && Spec.Run(trace, Joined(batches), rows.maxSize)
    ensures trace[0] == old(rows.Abstract()) && trace[|trace| - 1] == rows.Abstract()
    ensures Answers(results, queries, old(rows.applied), count)
    ensures forall d :: Dot(queries, old(rows.applied), d) == Meaning(vectors, mappings, old(rows.applied), d)
  {
    hide Answers, Dot, Meaning, Sound, RowIndex.Rows.Valid, Spec.Run;
    queries := Process(vectors, mappings);
    NonNegativeSound(queries, rows.index);
    results, trace := SearchInterleaved(rows, queries, count, batches);
  }
}
