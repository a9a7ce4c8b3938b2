/** The four-point collection of the unit tests (tests/test_core.py) and what
    the tests expect of each core operation on it, proved of the model. */
module FixtureChecks {
  import opened Sequences
  import opened Core
  import Shell

  /** Two points in Pirambu and two in Centro, with severities 8, 5, 2, 7. */
  const Fixture: seq<DisposalPoint> := [
    DisposalPoint(1, "Pirambu", 8, "pendente"),
    DisposalPoint(2, "Centro", 5, "resolvido"),
    DisposalPoint(3, "Pirambu", 2, "pendente"),
    DisposalPoint(4, "Centro", 7, "em_atendimento")
  ]

  /** Filtering four points is one keep-or-drop decision per point, from the
      last point back to the first. */
  lemma FilterFourSteps(a: DisposalPoint, b: DisposalPoint, c: DisposalPoint, d: DisposalPoint, keep: DisposalPoint -> bool)
    ensures Filter([d], keep) == if keep(d) then [d] else []
    ensures Filter([c, d], keep) == (if keep(c) then [c] else []) + Filter([d], keep)
    ensures Filter([b, c, d], keep) == (if keep(b) then [b] else []) + Filter([c, d], keep)
    ensures Filter([a, b, c, d], keep) == (if keep(a) then [a] else []) + Filter([b, c, d], keep)
  {
    assert [d] == [d] + [];
    FilterCons(d, [], keep);
    assert [c, d] == [c] + [d];
    FilterCons(c, [d], keep);
    assert [b, c, d] == [b] + [c, d];
    FilterCons(b, [c, d], keep);
    assert [a, b, c, d] == [a] + [b, c, d];
    FilterCons(a, [b, c, d], keep);
  }

  /** The lower-cased names of the fixture's two neighbourhoods. */
  lemma LowerPirambuCentro()
    ensures Lower("Pirambu") == "pirambu"
    ensures Lower("Centro") == "centro"
  {
    assert "Pirambu" == ['P'] + "irambu";
  }

  /** Which points the case-insensitive match for "Pirambu" accepts. */
  lemma PirambuMatchesOnFixture()
    ensures var keep := NeighborhoodMatches("Pirambu");
      keep(Fixture[0]) && !keep(Fixture[1]) && keep(Fixture[2]) && !keep(Fixture[3])
  {
    LowerPirambuCentro();
  }

  /** Which points the case-insensitive match for "Centro" accepts. */
  lemma CentroMatchesOnFixture()
    ensures var keep := NeighborhoodMatches("Centro");
      !keep(Fixture[0]) && keep(Fixture[1]) && !keep(Fixture[2]) && keep(Fixture[3])
  {
    LowerPirambuCentro();
  }

  /** "Pirambu" finds the first and third points, in that order. */
  lemma NeighborhoodFilterPirambu()
    ensures FilterByNeighborhood(Fixture, "Pirambu") == [Fixture[0], Fixture[2]]
  {
    var a, b, c, d := Fixture[0], Fixture[1], Fixture[2], Fixture[3];
    PirambuMatchesOnFixture();
    FilterFourSteps(a, b, c, d, NeighborhoodMatches("Pirambu"));
    assert Fixture == [a, b, c, d];
  }

  /** The lower-case spelling "pirambu" finds the same two points. */
  lemma NeighborhoodFilterPirambuLowerCase()
    ensures FilterByNeighborhood(Fixture, "pirambu") == [Fixture[0], Fixture[2]]
  {
    NeighborhoodFilterPirambu();
    LowerPirambuCentro();
    NeighborhoodFilterIgnoresCase(Fixture, "pirambu", "Pirambu");
  }

  /** "Centro" finds the second and fourth points, in that order. */
  lemma NeighborhoodFilterCentro()
    ensures FilterByNeighborhood(Fixture, "Centro") == [Fixture[1], Fixture[3]]
  {
    var a, b, c, d := Fixture[0], Fixture[1], Fixture[2], Fixture[3];
    CentroMatchesOnFixture();
    FilterFourSteps(a, b, c, d, NeighborhoodMatches("Centro"));
    assert Fixture == [a, b, c, d];
  }

  /** The high band (8 to 10) selects the point with id 1 alone. */
  lemma SeverityFilterHigh()
    ensures FilterBySeverity(Fixture, 8, 10) == [Fixture[0]]
  {
    var a, b, c, d := Fixture[0], Fixture[1], Fixture[2], Fixture[3];
    FilterFourSteps(a, b, c, d, SeverityInBand(8, 10));
    assert Fixture == [a, b, c, d];
  }

  /** The medium band (4 to 7) selects the points with ids 2 and 4. */
  lemma SeverityFilterMedium()
    ensures FilterBySeverity(Fixture, 4, 7) == [Fixture[1], Fixture[3]]
  {
    var a, b, c, d := Fixture[0], Fixture[1], Fixture[2], Fixture[3];
    FilterFourSteps(a, b, c, d, SeverityInBand(4, 7));
    assert Fixture == [a, b, c, d];
  }

  /** The low band (1 to 3) selects the point with id 3 alone. */
  lemma SeverityFilterLow()
    ensures FilterBySeverity(Fixture, 1, 3) == [Fixture[2]]
  {
    var a, b, c, d := Fixture[0], Fixture[1], Fixture[2], Fixture[3];
    FilterFourSteps(a, b, c, d, SeverityInBand(1, 3));
    assert Fixture == [a, b, c, d];
  }

  /** Setting every status to "verificado" changes only the statuses. */
  lemma UpdateOnFixture()
    ensures UpdateStatuses(Fixture, Shell.SetAllStatuses("verificado")) == [
      DisposalPoint(1, "Pirambu", 8, "verificado"),
      DisposalPoint(2, "Centro", 5, "verificado"),
      DisposalPoint(3, "Pirambu", 2, "verificado"),
      DisposalPoint(4, "Centro", 7, "verificado")
    ]
  {
  }

  /** The points recorded under exactly "Pirambu". */
  lemma ExactPirambuOnFixture()
    ensures Filter(Fixture, InNeighborhood("Pirambu")) == [Fixture[0], Fixture[2]]
  {
    var a, b, c, d := Fixture[0], Fixture[1], Fixture[2], Fixture[3];
    FilterFourSteps(a, b, c, d, InNeighborhood("Pirambu"));
    assert Fixture == [a, b, c, d];
  }

  /** The points recorded under exactly "Centro". */
  lemma ExactCentroOnFixture()
    ensures Filter(Fixture, InNeighborhood("Centro")) == [Fixture[1], Fixture[3]]
  {
    var a, b, c, d := Fixture[0], Fixture[1], Fixture[2], Fixture[3];
    FilterFourSteps(a, b, c, d, InNeighborhood("Centro"));
    assert Fixture == [a, b, c, d];
  }

  /** The report's keys are the fixture's two neighbourhood names. */
  lemma ReportKeysOnFixture()
    ensures forall n :: n in ReportByNeighborhood(Fixture) <==> n == "Pirambu" || n == "Centro"
  {
    var r := ReportByNeighborhood(Fixture);
    assert Fixture[0] in Fixture && Fixture[1] in Fixture;
    forall n | n in r ensures n == "Pirambu" || n == "Centro" {
      var p :| p in Fixture && p.neighborhood == n;
    }
  }

  /** The report counts two points under each of the two names. */
  lemma ReportCountsOnFixture()
    ensures var r := ReportByNeighborhood(Fixture);
      "Pirambu" in r && r["Pirambu"] == 2 && "Centro" in r && r["Centro"] == 2
  {
    ReportKeysOnFixture();
    ExactPirambuOnFixture();
    ExactCentroOnFixture();
  }

  /** A map with exactly two keys is the display of those keys and values. */
  lemma TwoKeyMap(r: map<string, nat>, a: string, b: string)
    requires forall n :: n in r <==> n == a || n == b
    requires a != b
    ensures r == map[a := r[a], b := r[b]]
  {
  }

  /** The report counts two points in each neighbourhood. */
  lemma ReportOnFixture()
    ensures ReportByNeighborhood(Fixture) == map["Pirambu" := 2, "Centro" := 2]
  {
    ReportKeysOnFixture();
    ReportCountsOnFixture();
    TwoKeyMap(ReportByNeighborhood(Fixture), "Pirambu", "Centro");
  }

  /** The filter bound to "pendente" finds the points with ids 1 and 3. */
  lemma StatusFilterPending()
    ensures MakeStatusFilter("pendente")(Fixture) == [Fixture[0], Fixture[2]]
  {
    var a, b, c, d := Fixture[0], Fixture[1], Fixture[2], Fixture[3];
    FilterFourSteps(a, b, c, d, HasStatus("pendente"));
    assert Fixture == [a, b, c, d];
  }

  /** Status matching is exact: "Pendente" finds nothing. */
  lemma StatusFilterIsCaseSensitive()
    ensures MakeStatusFilter("Pendente")(Fixture) == []
  {
    var a, b, c, d := Fixture[0], Fixture[1], Fixture[2], Fixture[3];
    FilterFourSteps(a, b, c, d, HasStatus("Pendente"));
    assert Fixture == [a, b, c, d];
  }
}
