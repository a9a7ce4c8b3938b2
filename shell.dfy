/** The concrete inputs the interactive menu (main.py) hands to the core: the
    named severity bands, the accepted statuses, the update rule that changes
    one point's status, and the id given to a newly registered point. */
module Shell {
  import opened Sequences
  import opened Core

  /** The named severity bands offered by the menu: low, medium, high. */
  const SeverityLevels: map<string, (int, int)> := map["baixo" := (1, 3), "medio" := (4, 7), "alto" := (8, 10)]

  /** The statuses the menu accepts. */
  const ValidStatuses: seq<string> := ["pendente", "em_atendimento", "resolvido"]

  /** Whether severity `v` lies in the band named `level`. */
  predicate InLevel(level: string, v: int)
    requires level in SeverityLevels
  {
    InBand(v, SeverityLevels[level].0, SeverityLevels[level].1)
  }

  /** Whether severity `v` lies in one of the named bands. */
  ghost predicate InSomeLevel(v: int)
  {
    exists level :: level in SeverityLevels && InLevel(level, v)
  }

  /** The bands cover exactly the severity scale 1..10, and no severity lies in
      two of them. */
  lemma SeverityLevelsPartitionScale()
    ensures forall v :: InSomeLevel(v) <==> 1 <= v <= 10
    ensures forall level1, level2, v ::
              level1 in SeverityLevels && level2 in SeverityLevels && InLevel(level1, v) && InLevel(level2, v)
              ==> level1 == level2
  {
    forall v ensures InSomeLevel(v) <==> 1 <= v <= 10 {
      if 1 <= v <= 3 {
        assert InLevel("baixo", v);
      } else if 4 <= v <= 7 {
        assert InLevel("medio", v);
      } else if 8 <= v <= 10 {
        assert InLevel("alto", v);
      }
    }
  }

  /** The points in the band named `level` (menu option 2): in their original
      order and with their multiplicities, exactly those whose severity lies in
      that band. */
  function FilterByLevel(points: seq<DisposalPoint>, level: string): (r: seq<DisposalPoint>)
    requires level in SeverityLevels
    ensures IsSubsequence(r, points)
    ensures forall p :: p in r <==> p in points && InLevel(level, p.severity)
    ensures forall p {:trigger multiset(r)[p]} :: multiset(r)[p] == if InLevel(level, p.severity) then multiset(points)[p] else 0
  {
    FilterBySeverity(points, SeverityLevels[level].0, SeverityLevels[level].1)
  }

  /** When every severity is on the 1..10 scale, the three bands split the
      collection: each point falls in exactly one of them. */
  lemma SeverityLevelsPartitionPoints(points: seq<DisposalPoint>)
    requires forall p :: p in points ==> 1 <= p.severity <= 10
    ensures multiset(FilterByLevel(points, "baixo")) + multiset(FilterByLevel(points, "medio"))
            + multiset(FilterByLevel(points, "alto")) == multiset(points)
    ensures |FilterByLevel(points, "baixo")| + |FilterByLevel(points, "medio")|
            + |FilterByLevel(points, "alto")| == |points|
  {
    var low, medium, high := FilterByLevel(points, "baixo"), FilterByLevel(points, "medio"), FilterByLevel(points, "alto");
    forall p ensures multiset(low)[p] + multiset(medium)[p] + multiset(high)[p] == multiset(points)[p] {
      if p !in points {
        assert multiset(points)[p] == 0;
      }
    }
    assert multiset(low) + multiset(medium) + multiset(high) == multiset(points);
    assert |multiset(low) + multiset(medium) + multiset(high)| == |multiset(points)|;
  }

  // ---------------------------------------------------------------------------
  // Update rules

  /** The rule of menu option 4: the point with id `targetId` gets status
      `newStatus`, every other point is returned as it is. */
  function SetStatusOf(targetId: int, newStatus: string): (rule: DisposalPoint -> DisposalPoint)
    ensures forall p :: rule(p).id == p.id && rule(p).neighborhood == p.neighborhood && rule(p).severity == p.severity
    ensures forall p: DisposalPoint :: p.id == targetId ==> rule(p).status == newStatus
    ensures forall p: DisposalPoint :: p.id != targetId ==> rule(p) == p
  {
    (p: DisposalPoint) => if p.id == targetId then p.(status := newStatus) else p
  }

  /** The rule that gives every point status `newStatus` and keeps its other
      fields. */
  function SetAllStatuses(newStatus: string): (rule: DisposalPoint -> DisposalPoint)
    ensures forall p :: rule(p).id == p.id && rule(p).neighborhood == p.neighborhood && rule(p).severity == p.severity
    ensures forall p :: rule(p).status == newStatus
  {
    (p: DisposalPoint) => p.(status := newStatus)
  }

  /** With the menu's rule, only the status of the points with the target id
      changes; their other fields and every other point stay as they were. */
  lemma UpdateOneStatus(points: seq<DisposalPoint>, targetId: int, newStatus: string)
    ensures var r := UpdateStatuses(points, SetStatusOf(targetId, newStatus));
      && |r| == |points|
      && (forall i :: 0 <= i < |points| && points[i].id != targetId ==> r[i] == points[i])
      && (forall i :: 0 <= i < |points| && points[i].id == targetId ==>
            && r[i].status == newStatus
            && r[i].id == points[i].id
            && r[i].neighborhood == points[i].neighborhood
            && r[i].severity == points[i].severity)
  {
  }

  /** No two points share an id. */
  ghost predicate UniqueIds(points: seq<DisposalPoint>)
  {
    forall i, j :: 0 <= i < j < |points| ==> points[i].id != points[j].id
  }

  /** When ids are unique, updating the status of the point at position `k`
      touches that point alone, keeps the ids unique and leaves the
      per-neighbourhood report as it was. */
  lemma UpdateOneStatusTouchesOnlyTarget(points: seq<DisposalPoint>, k: int, newStatus: string)
    requires UniqueIds(points)
    requires 0 <= k < |points|
    ensures var r := UpdateStatuses(points, SetStatusOf(points[k].id, newStatus));
      && r[k] == points[k].(status := newStatus)
      && (forall i :: 0 <= i < |points| && i != k ==> r[i] == points[i])
      && UniqueIds(r)
      && ReportByNeighborhood(r) == ReportByNeighborhood(points)
  {
    var rule := SetStatusOf(points[k].id, newStatus);
    ReportUnchangedByUpdate(points, rule);
  }

  /** With the rule that sets every status, every point gets the new status and
      keeps its other fields, and the status filter for the new status then
      returns the whole list. */
  lemma UpdateAllStatuses(points: seq<DisposalPoint>, newStatus: string)
    ensures var r := UpdateStatuses(points, SetAllStatuses(newStatus));
      && |r| == |points|
      && (forall i :: 0 <= i < |points| ==> r[i] == points[i].(status := newStatus))
      && MakeStatusFilter(newStatus)(r) == r
  {
    var r := UpdateStatuses(points, SetAllStatuses(newStatus));
    assert forall p :: p in r ==> p.status == newStatus;
    SubsequenceReflexive(r);
    FilterUnique(r, HasStatus(newStatus), r);
  }

  // ---------------------------------------------------------------------------
  // Registration of a new point

  /** The largest id in a non-empty list. */
  function MaxId(points: seq<DisposalPoint>): (m: int)
    requires points != []
    ensures forall p :: p in points ==> p.id <= m
    ensures exists p :: p in points && p.id == m
  {
    if |points| == 1 then points[0].id
    else
      var rest := MaxId(points[1..]);
      assert points == [points[0]] + points[1..];
      if points[0].id > rest then points[0].id else rest
  }

  /** The id given to a newly registered point: one more than the largest id
      in use, or 1 when the list is empty. */
  function NextId(points: seq<DisposalPoint>): (id: int)
    ensures forall p :: p in points ==> p.id < id
    ensures points == [] ==> id == 1
    ensures points != [] ==> exists p :: p in points && p.id == id - 1
  {
    (if points == [] then 0 else MaxId(points)) + 1
  }

  /** The point created by menu option 5: the given neighbourhood and
      severity, an id no existing point has, and status "pendente". */
  function NewPoint(points: seq<DisposalPoint>, neighborhood: string, severity: int): (q: DisposalPoint)
    ensures forall p :: p in points ==> p.id != q.id
    ensures q.neighborhood == neighborhood && q.severity == severity
    ensures q.status == "pendente"
  {
    DisposalPoint(NextId(points), neighborhood, severity, "pendente")
  }

  /** What the menu keeps true of its collection: unique ids, non-empty
      neighbourhood names, severities on the 1..10 scale and accepted
      statuses. */
  ghost predicate WellFormed(points: seq<DisposalPoint>)
  {
    && UniqueIds(points)
    && forall p :: p in points ==>
         && p.neighborhood != ""
         && 1 <= p.severity <= 10
         && p.status in ValidStatuses
  }

  /** Appending a point built from validated input keeps the collection well
      formed; in particular its id is used by no other point. */
  lemma RegisterKeepsWellFormed(points: seq<DisposalPoint>, neighborhood: string, severity: int)
    requires WellFormed(points)
    requires neighborhood != ""
    requires 1 <= severity <= 10
    ensures WellFormed(points + [NewPoint(points, neighborhood, severity)])
  {
    var q := NewPoint(points, neighborhood, severity);
    var r := points + [q];
    forall i, j | 0 <= i < j < |r| ensures r[i].id != r[j].id {
      if j == |points| {
        assert r[i] in points;
      }
    }
  }

  /** Setting an accepted status through the menu's rule keeps the collection
      well formed. */
  lemma UpdateKeepsWellFormed(points: seq<DisposalPoint>, targetId: int, newStatus: string)
    requires WellFormed(points)
    requires newStatus in ValidStatuses
    ensures WellFormed(UpdateStatuses(points, SetStatusOf(targetId, newStatus)))
  {
    var r := UpdateStatuses(points, SetStatusOf(targetId, newStatus));
    forall p | p in r ensures p.neighborhood != "" && 1 <= p.severity <= 10 && p.status in ValidStatuses {
      var i :| 0 <= i < |r| && r[i] == p;
      assert points[i] in points;
    }
  }

  /** The sample collection the menu starts with. */
  const InitialPoints: seq<DisposalPoint> := [
    DisposalPoint(1, "Pirambu", 8, "pendente"),
    DisposalPoint(2, "Barra do Ceará", 9, "pendente"),
    DisposalPoint(3, "Vicente Pinzón", 5, "pendente"),
    DisposalPoint(4, "Pirambu", 6, "em_atendimento"),
    DisposalPoint(5, "Centro", 7, "resolvido"),
    DisposalPoint(6, "Vicente Pinzón", 2, "resolvido")
  ]

  /** Every sample point has a neighbourhood, a severity on the scale and an
      accepted status. */
  lemma InitialPointsFieldsValid()
    ensures forall p :: p in InitialPoints ==>
      && p.neighborhood != ""
      && 1 <= p.severity <= 10
      && p.status in ValidStatuses
  {
  }

  /** The sample ids are 1 to 6 in order. */
  lemma InitialPointsIds()
    ensures forall i :: 0 <= i < |InitialPoints| ==> InitialPoints[i].id == i + 1
    ensures forall p :: p in InitialPoints ==> p.id <= 6
  {
  }

  /** The sample collection is well formed, and the next point gets id 7. */
  lemma InitialPointsWellFormed()
    ensures WellFormed(InitialPoints)
    ensures NextId(InitialPoints) == 7
  {
    InitialPointsFieldsValid();
    InitialPointsIds();
    assert InitialPoints[5] in InitialPoints;
  }
}
