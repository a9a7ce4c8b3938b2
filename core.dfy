/** The record query/transform library of the waste-disposal tracker
    (src/core.py): five pure operations over the ordered list of disposal
    points. None of them changes its input; each builds a new list or map. */
module Core {
  import opened Sequences
  import opened Counting

  /** One tracked disposal point: a record with an `id`, the neighbourhood
      (`bairro`) it lies in, a severity score (`criticidade`) and a lifecycle
      status. */
  datatype DisposalPoint = DisposalPoint(id: int, neighborhood: string, severity: int, status: string)

  /** ASCII lower-casing of one character: a capital letter becomes its small
      letter, every other character is returned as it is. */
  function LowerChar(c: char): (r: char)
    ensures !('A' <= r <= 'Z')
    ensures 'A' <= c <= 'Z' ==> 'a' <= r <= 'z' && r as int - 'a' as int == c as int - 'A' as int
    ensures !('A' <= c <= 'Z') ==> r == c
  {
    if 'A' <= c <= 'Z' then (c as int - 'A' as int + 'a' as int) as char else c
  }

  /** Lower-casing of a string, character by character (`str.lower()`): same
      length, each character lower-cased, no capital letter left. */
  function Lower(s: string): (r: string)
    ensures |r| == |s|
    ensures forall i :: 0 <= i < |s| ==> r[i] == LowerChar(s[i])
    ensures forall i :: 0 <= i < |r| ==> !('A' <= r[i] <= 'Z')
  {
    MapSeq(s, LowerChar)
  }

  // ---------------------------------------------------------------------------
  // Neighbourhood filter (filtrar_pontos_por_bairro)

  /** Whether a point lies in the neighbourhood named by `query`, ignoring case. */
  function NeighborhoodMatches(query: string): DisposalPoint -> bool
  {
    (p: DisposalPoint) => Lower(p.neighborhood) == Lower(query)
  }

  /** The points whose neighbourhood equals `neighborhood` up to case, in their
      original order; every other point is left out. */
  function FilterByNeighborhood(points: seq<DisposalPoint>, neighborhood: string): (r: seq<DisposalPoint>)
    ensures IsSubsequence(r, points)
    ensures forall p :: p in r <==> p in points && Lower(p.neighborhood) == Lower(neighborhood)
    ensures forall p {:trigger multiset(r)[p]} :: multiset(r)[p] == if Lower(p.neighborhood) == Lower(neighborhood) then multiset(points)[p] else 0
  {
    Filter(points, NeighborhoodMatches(neighborhood))
  }

  /** Two queries that lower-case to the same text find the same points. */
  lemma NeighborhoodFilterIgnoresCase(points: seq<DisposalPoint>, query1: string, query2: string)
    requires Lower(query1) == Lower(query2)
    ensures FilterByNeighborhood(points, query1) == FilterByNeighborhood(points, query2)
  {
    FilterAgreeing(points, NeighborhoodMatches(query1), NeighborhoodMatches(query2));
  }

  /** Lower-casing never changes a lower-cased string. */
  lemma LowerIdempotent(s: string)
    ensures Lower(Lower(s)) == Lower(s)
  {
  }

  /** In particular, querying with the lower-cased name gives the same points. */
  lemma NeighborhoodFilterLowerQuery(points: seq<DisposalPoint>, query: string)
    ensures FilterByNeighborhood(points, Lower(query)) == FilterByNeighborhood(points, query)
  {
    LowerIdempotent(query);
    NeighborhoodFilterIgnoresCase(points, Lower(query), query);
  }

  /** Filtering the result by the same neighbourhood again changes nothing. */
  lemma NeighborhoodFilterIdempotent(points: seq<DisposalPoint>, neighborhood: string)
    ensures FilterByNeighborhood(FilterByNeighborhood(points, neighborhood), neighborhood)
         == FilterByNeighborhood(points, neighborhood)
    ensures |FilterByNeighborhood(points, neighborhood)| <= |points|
  {
    FilterIdempotent(points, NeighborhoodMatches(neighborhood));
  }

  // ---------------------------------------------------------------------------
  // Severity-band filter (filtrar_pontos_por_criticidade)

  /** Whether severity `v` lies in the inclusive band [minLevel, maxLevel]. */
  predicate InBand(v: int, minLevel: int, maxLevel: int)
  {
    minLevel <= v <= maxLevel
  }

  /** Whether a point's severity lies in the inclusive band [minLevel, maxLevel]. */
  function SeverityInBand(minLevel: int, maxLevel: int): DisposalPoint -> bool
  {
    (p: DisposalPoint) => InBand(p.severity, minLevel, maxLevel)
  }

  /** The points whose severity lies in [minLevel, maxLevel], in their original
      order; the bounds are not checked against each other. */
  function FilterBySeverity(points: seq<DisposalPoint>, minLevel: int, maxLevel: int): (r: seq<DisposalPoint>)
    ensures IsSubsequence(r, points)
    ensures forall p :: p in r <==> p in points && minLevel <= p.severity <= maxLevel
    ensures forall p {:trigger multiset(r)[p]} :: multiset(r)[p] == if minLevel <= p.severity <= maxLevel then multiset(points)[p] else 0
  {
    Filter(points, SeverityInBand(minLevel, maxLevel))
  }

  /** A band whose lower bound exceeds its upper bound selects nothing. */
  lemma SeverityFilterEmptyBand(points: seq<DisposalPoint>, minLevel: int, maxLevel: int)
    requires minLevel > maxLevel
    ensures FilterBySeverity(points, minLevel, maxLevel) == []
  {
  }

  /** Filtering the result by the same band again changes nothing. */
  lemma SeverityFilterIdempotent(points: seq<DisposalPoint>, minLevel: int, maxLevel: int)
    ensures FilterBySeverity(FilterBySeverity(points, minLevel, maxLevel), minLevel, maxLevel)
         == FilterBySeverity(points, minLevel, maxLevel)
    ensures |FilterBySeverity(points, minLevel, maxLevel)| <= |points|
  {
    FilterIdempotent(points, SeverityInBand(minLevel, maxLevel));
  }

  // ---------------------------------------------------------------------------
  // Bulk update through a caller-supplied rule (atualizar_status_pontos)

  /** The list with `update` applied to every point: same length, same order,
      element i is `update(points[i])`. */
  function UpdateStatuses(points: seq<DisposalPoint>, update: DisposalPoint -> DisposalPoint): (r: seq<DisposalPoint>)
    ensures |r| == |points|
    ensures forall i :: 0 <= i < |points| ==> r[i] == update(points[i])
  {
    MapSeq(points, update)
  }

  /** A rule that returns every point unchanged leaves the list as it was. */
  lemma UpdateWithIdentity(points: seq<DisposalPoint>, update: DisposalPoint -> DisposalPoint)
    requires forall p :: update(p) == p
    ensures UpdateStatuses(points, update) == points
  {
    MapIdentity(points, update);
  }

  // ---------------------------------------------------------------------------
  // Per-neighbourhood report (gerar_relatorio_por_bairro)

  /** The neighbourhood of every point, in order (the comprehension that feeds
      the counter): a name occurs in it exactly when some point lies there. */
  function Neighborhoods(points: seq<DisposalPoint>): (names: seq<string>)
    ensures |names| == |points|
    ensures forall i :: 0 <= i < |points| ==> names[i] == points[i].neighborhood
    ensures forall n :: n in names <==> exists p :: p in points && p.neighborhood == n
  {
    var names := MapSeq(points, (p: DisposalPoint) => p.neighborhood);
    assert forall n :: n in names <==> exists p :: p in points && p.neighborhood == n by {
      forall n | n in names ensures exists p :: p in points && p.neighborhood == n {
        var i :| 0 <= i < |names| && names[i] == n;
        assert points[i] in points;
      }
      forall n | exists p :: p in points && p.neighborhood == n ensures n in names {
        var p :| p in points && p.neighborhood == n;
        var i :| 0 <= i < |points| && points[i] == p;
        assert names[i] == n;
      }
    }
    names
  }

  /** Whether a point's neighbourhood is exactly `neighborhood` (case counts). */
  function InNeighborhood(neighborhood: string): DisposalPoint -> bool
  {
    (p: DisposalPoint) => p.neighborhood == neighborhood
  }

  /** How often a name occurs among the neighbourhoods is the number of points
      recorded under exactly that name. */
  lemma {:induction false} OccurrencesCountPoints(points: seq<DisposalPoint>, neighborhood: string)
    ensures multiset(Neighborhoods(points))[neighborhood] == |Filter(points, InNeighborhood(neighborhood))|
  {
    if points != [] {
      OccurrencesCountPoints(points[1..], neighborhood);
      assert Neighborhoods(points) == [points[0].neighborhood] + Neighborhoods(points[1..]);
    }
  }

  /** The number of points per neighbourhood: the keys are exactly the
      neighbourhood names present (compared exactly, without case-folding) and
      each value is the number of points recorded under that name. */
  function ReportByNeighborhood(points: seq<DisposalPoint>): (r: map<string, nat>)
    ensures forall n :: n in r <==> exists p :: p in points && p.neighborhood == n
    ensures forall n :: n in r ==> r[n] == |Filter(points, InNeighborhood(n))|
  {
    var names := Neighborhoods(points);
    forall n ensures multiset(names)[n] == |Filter(points, InNeighborhood(n))| {
      OccurrencesCountPoints(points, n);
    }
    Tally(names)
  }

  /** The counts of the report add up to the number of points. */
  lemma ReportTotal(points: seq<DisposalPoint>)
    ensures SumValues(ReportByNeighborhood(points)) == |points|
  {
    TallyTotal(Neighborhoods(points));
  }

  /** An empty list gives an empty report. */
  lemma ReportOfEmpty()
    ensures ReportByNeighborhood([]) == map[]
  {
  }

  /** A rule that keeps every point's neighbourhood does not change the report. */
  lemma ReportUnchangedByUpdate(points: seq<DisposalPoint>, update: DisposalPoint -> DisposalPoint)
    requires forall p :: update(p).neighborhood == p.neighborhood
    ensures ReportByNeighborhood(UpdateStatuses(points, update)) == ReportByNeighborhood(points)
  {
    assert Neighborhoods(UpdateStatuses(points, update)) == Neighborhoods(points);
  }

  /** The report counts exact names while the neighbourhood filter ignores
      case, so the filter for a name finds at least as many points as the
      report counts for it. */
  lemma ReportCountAtMostFilter(points: seq<DisposalPoint>, neighborhood: string)
    requires neighborhood in ReportByNeighborhood(points)
    ensures ReportByNeighborhood(points)[neighborhood] <= |FilterByNeighborhood(points, neighborhood)|
  {
    FilterLengthMonotone(points, InNeighborhood(neighborhood), NeighborhoodMatches(neighborhood));
  }

  // ---------------------------------------------------------------------------
  // Status filter factory (criar_filtro_por_status and its inner filtrar)

  /** Whether a point's status is exactly `status` (case counts). */
  function HasStatus(status: string): DisposalPoint -> bool
  {
    (p: DisposalPoint) => p.status == status
  }

  /** The points whose status is exactly `status`, in their original order. */
  function FilterByStatus(status: string, points: seq<DisposalPoint>): (r: seq<DisposalPoint>)
    ensures IsSubsequence(r, points)
    ensures forall p :: p in r <==> p in points && p.status == status
    ensures forall p {:trigger multiset(r)[p]} :: multiset(r)[p] == if p.status == status then multiset(points)[p] else 0
  {
    Filter(points, HasStatus(status))
  }

  /** A reusable filter bound to `status`: whatever list it is later applied
      to, it returns exactly that list's points whose status is `status`, in
      order. */
  function MakeStatusFilter(status: string): (filter: seq<DisposalPoint> -> seq<DisposalPoint>)
    ensures forall points :: IsSubsequence(filter(points), points)
    ensures forall points, p :: p in filter(points) <==> p in points && p.status == status
    ensures forall points, p {:trigger multiset(filter(points))[p]} :: multiset(filter(points))[p] == if p.status == status then multiset(points)[p] else 0
  {
    points => FilterByStatus(status, points)
  }

  /** The bound filter applied to its own output returns that output, and its
      output is never longer than its input. */
  lemma StatusFilterIdempotent(status: string, points: seq<DisposalPoint>)
    ensures MakeStatusFilter(status)(MakeStatusFilter(status)(points)) == MakeStatusFilter(status)(points)
    ensures |MakeStatusFilter(status)(points)| <= |points|
  {
    var filter := MakeStatusFilter(status);
    var once := filter(points);
    assert once == Filter(points, HasStatus(status));
    assert filter(once) == Filter(once, HasStatus(status));
    FilterIdempotent(points, HasStatus(status));
  }

  /** The bound filter can be applied to two lists separately or to their
      concatenation, with the same result. */
  lemma StatusFilterAppend(status: string, points: seq<DisposalPoint>, more: seq<DisposalPoint>)
    ensures MakeStatusFilter(status)(points + more)
         == MakeStatusFilter(status)(points) + MakeStatusFilter(status)(more)
  {
    var filter := MakeStatusFilter(status);
    assert filter(points + more) == Filter(points + more, HasStatus(status));
    assert filter(points) == Filter(points, HasStatus(status));
    assert filter(more) == Filter(more, HasStatus(status));
    FilterAppend(points, more, HasStatus(status));
  }
}
