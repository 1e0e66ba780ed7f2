/** What a reported conflict says, against everything that was found. */
module Findings {
  import opened Core
  import opened ConflictRules
  import opened Contentions

  /** `c` describes the meeting of `x`'s two robots on `x`'s resource. */
  predicate SameContention(c: Candidate, x: Conflict) {
    c.robotA == x.robotA && c.robotB == x.robotB && c.resource == x.resource
  }

  /** At least as severe a description as a meeting of this kind: the documented ladder, kind by kind. */
  predicate AtLeast(found: ConflictType, reported: ConflictType) {
    match found
    case HeadOn => reported in {HeadOn}
    case Crossing => reported in {HeadOn, Crossing}
    case CorridorClash => reported in {HeadOn, Crossing, CorridorClash}
    case EdgeClash => reported in {HeadOn, Crossing, CorridorClash, EdgeClash}
    case NodeClash => reported in {HeadOn, Crossing, CorridorClash, EdgeClash, NodeClash}
    case ResourceClash => reported in {HeadOn, Crossing, CorridorClash, EdgeClash, NodeClash, ResourceClash}
    case Temporal => true
  }

  lemma NotBetterMeans(c: Candidate, best: Candidate)
    requires !Better(c, best)
    ensures AtLeast(c.kind, best.kind)
    ensures c.kind == best.kind ==> best.overlap.start <= c.overlap.start
    ensures c.kind == best.kind && c.overlap.start == best.overlap.start ==> best.overlap.end <= c.overlap.end
  {
  }

  /** A conflict is reported under the most telling kind found for its two robots and resource, with the
      earliest meeting of that kind. A head-on is never reported as anything less, and a temporal clash only
      where nothing but temporal clashes was found. */
  lemma ReportedKindIsStrongest(candidates: set<Candidate>, now: Time, config: DetectorConfig, x: Conflict)
    requires x in Report(candidates, now, config)
    ensures forall c :: c in candidates && SameContention(c, x) ==> AtLeast(c.kind, x.kind)
    ensures forall c :: c in candidates && SameContention(c, x) && c.kind == x.kind ==> x.id.start <= c.overlap.start
    ensures exists c :: c in candidates && SameContention(c, x) && c.kind == x.kind && c.overlap.start == x.id.start
    ensures x.kind == Temporal ==> forall c :: c in candidates && SameContention(c, x) ==> c.kind == Temporal
    ensures (exists c :: c in candidates && SameContention(c, x) && c.kind == HeadOn) ==> x.kind == HeadOn
  {
    ReportIsCanonical(candidates, now, config);
    var best :| IsBest(best, candidates) && ConflictOf(best, now, config) == Some(x);
    ConflictSaysCandidate(best, now, config);
    hide Report, Better, ConflictOf, AtLeast;
    forall c | c in candidates && SameContention(c, x)
      ensures AtLeast(c.kind, x.kind) && (c.kind == x.kind ==> x.id.start <= c.overlap.start)
    {
      NotBetterMeans(c, best);
    }
    KindsOnTheLadder();
  }

  lemma KindsOnTheLadder()
    ensures forall k :: AtLeast(k, Temporal) ==> k == Temporal
    ensures forall k :: AtLeast(HeadOn, k) ==> k == HeadOn
  {
  }

  lemma ConflictSaysCandidate(c: Candidate, now: Time, config: DetectorConfig)
    ensures var x := ConflictOf(c, now, config);
            x.Some? ==> SameContention(c, x.value) && x.value.kind == c.kind && x.value.id.start == c.overlap.start
  {
  }

  /** Every meeting of two named robots is reported, and once. */
  lemma NothingIsSwallowed(candidates: set<Candidate>, now: Time, config: DetectorConfig, c: Candidate)
    requires c in candidates && c.robotA != EMPTY_ID && c.robotB != EMPTY_ID && c.resource != EMPTY_ID && c.robotA != c.robotB
    ensures exists x :: x in Report(candidates, now, config) && SameContention(c, x)
    ensures var report := Report(candidates, now, config);
            forall i, j :: 0 <= i < j < |report| ==> !(SameContention(c, report[i]) && SameContention(c, report[j]))
  {
    ReportIsCanonical(candidates, now, config);
    var report := Report(candidates, now, config);
    BestExists(candidates, KeyOf(c));
    var best :| IsBest(best, candidates) && KeyOf(best) == KeyOf(c);
    assert ConflictOf(best, now, config).Some?;
    var x := ConflictOf(best, now, config).value;
    ConflictSaysCandidate(best, now, config);
    hide Report, IsBest, ConflictOf;
    assert x in report;
    forall i, j | 0 <= i < j < |report| ensures !(SameContention(c, report[i]) && SameContention(c, report[j])) {
      assert KeyBefore(ConflictKeys(report)[i], ConflictKeys(report)[j]);
    }
  }

  /** The list is in order: by the smaller robot, then the larger, then the resource. */
  lemma ReportIsInOrder(candidates: set<Candidate>, now: Time, config: DetectorConfig, i: nat, j: nat)
    requires i < j < |Report(candidates, now, config)|
    ensures var x, y := Report(candidates, now, config)[i], Report(candidates, now, config)[j];
            || x.robotA < y.robotA
            || (x.robotA == y.robotA && x.robotB < y.robotB)
            || (x.robotA == y.robotA && x.robotB == y.robotB && x.resource < y.resource)
  {
    ReportIsCanonical(candidates, now, config);
    hide Report;
    var report := Report(candidates, now, config);
    assert KeyBefore(ConflictKeys(report)[i], ConflictKeys(report)[j]);
  }

  /** How urgent a reported conflict is: high with less warning than the critical lead, low with as much as can be
      absorbed, medium between, and a head-on never low. Its id is written from its parts, the smaller robot first. */
  lemma SeverityIsTheWarningLeft(candidates: set<Candidate>, now: Time, config: DetectorConfig, x: Conflict)
    requires x in Report(candidates, now, config)
    ensures var lead, t := x.id.start - now, config.severity;
            && (x.severity == High <==> lead < t.criticalLead)
            && (x.severity == Low <==> lead >= t.criticalLead && lead >= t.absorbedLead && x.kind != HeadOn)
    ensures x.detectedAt == now && x.id.prefix == config.idPrefix && x.id.kind == x.kind && x.id.resource == x.resource
    ensures x.id.low <= x.id.high && {x.id.low, x.id.high} == {x.robotA, x.robotB}
  {
    ReportIsCanonical(candidates, now, config);
    var best :| IsBest(best, candidates) && ConflictOf(best, now, config) == Some(x);
    hide Report, IsBest;
  }
}
