/** The data types shared by every stage (internal/model/model.go, internal/config/config.go),
    and the identity an event is published under. */
module Hardware {
  import opened Text

  datatype Phase = Enter | Exit

  /** One measurement. Values are reals; the kind tag is not part of this model. */
  datatype Sample = Sample(
    node: string, tier: string, device: string, metric: string,
    value: real, labels: map<string, string>, timestamp: int)

  /** A threshold rule as configured; window lengths may be anything. */
  datatype Rule = Rule(
    metric: string, device: string, condition: string, severity: string,
    threshold: real, enterFor: int, exitFor: int)

  datatype Detail = Threshold(value: real, threshold: real) | Xid(code: nat, description: string)

  datatype Event = Event(
    id: string, node: string, tier: string, device: string, condition: string,
    phase: Phase, severity: string, number: nat,
    startedAt: int, endedAt: Option<int>, detail: Detail)

  function PhaseName(p: Phase): string {
    if p == Enter then "ENTER" else "EXIT"
  }

  /** The 16 hex digits taken from SHA-256, left abstract. */
  type Digest = string -> string

  ghost predicate IsDigest(hash: Digest) {
    forall x :: |hash(x)| == 16
  }

  function FingerprintInput(e: Event): string {
    Join([e.node, e.tier, e.device, e.condition], NUL)
  }

  /** "fingerprint-PHASE-seq". */
  function EventId(hash: Digest, e: Event): string {
    hash(FingerprintInput(e)) + ("-" + PhaseName(e.phase) + "-" + Decimal(e.number))
  }

  function WithId(hash: Digest, e: Event): Event {
    e.(id := EventId(hash, e))
  }

  ghost predicate NulFree(s: string) { NUL !in s }

  ghost predicate CleanIdentity(e: Event) {
    NulFree(e.node) && NulFree(e.tier) && NulFree(e.device) && NulFree(e.condition)
  }

  /** What an event's ID stands for. */
  ghost predicate SameIdentity(a: Event, b: Event) {
    && a.node == b.node && a.tier == b.tier && a.device == b.device && a.condition == b.condition
    && a.phase == b.phase && a.number == b.number
  }

  /** The digest does not confuse the fingerprints of these two events. */
  ghost predicate NoCollision(hash: Digest, a: Event, b: Event) {
    hash(FingerprintInput(a)) == hash(FingerprintInput(b)) ==> FingerprintInput(a) == FingerprintInput(b)
  }

  /** An ID, spelled out. */
  lemma EventIdText(hash: Digest, e: Event)
    ensures EventId(hash, e) ==
            hash(e.node + "\0" + e.tier + "\0" + e.device + "\0" + e.condition) +
            (if e.phase == Enter then "-ENTER-" else "-EXIT-") + Decimal(e.number)
  {
    hide Join, Decimal;
    JoinOfFour(e.node, e.tier, e.device, e.condition);
    var digest, phase, number := hash(FingerprintInput(e)), PhaseName(e.phase), Decimal(e.number);
    assert "-" + phase + "-" == if e.phase == Enter then "-ENTER-" else "-EXIT-";
    assert digest + ("-" + phase + "-" + number) == digest + ("-" + phase + "-") + number;
  }

  /** Two events get the same ID exactly when they agree on node, tier, device, condition,
      phase and sequence number. */
  lemma EventIdMeaning(hash: Digest, a: Event, b: Event)
    requires IsDigest(hash) && NoCollision(hash, a, b)
    requires CleanIdentity(a) && CleanIdentity(b)
    ensures EventId(hash, a) == EventId(hash, b) <==> SameIdentity(a, b)
  {
    if EventId(hash, a) == EventId(hash, b) {
      IdParts(hash, a, b);
      SamePhaseAndNumber(a.phase, a.number, b.phase, b.number);
      SameFields(a, b);
      hide CleanIdentity, EventId, FingerprintInput, PhaseName, Decimal;
    }
  }

  /** The digest's length is fixed, so equal IDs agree before and after it. */
  lemma IdParts(hash: Digest, a: Event, b: Event)
    requires IsDigest(hash) && EventId(hash, a) == EventId(hash, b)
    ensures hash(FingerprintInput(a)) == hash(FingerprintInput(b))
    ensures "-" + PhaseName(a.phase) + "-" + Decimal(a.number) == "-" + PhaseName(b.phase) + "-" + Decimal(b.number)
  {
    hide FingerprintInput, PhaseName, Decimal;
    CutAt16(hash(FingerprintInput(a)), "-" + PhaseName(a.phase) + "-" + Decimal(a.number), EventId(hash, a));
    CutAt16(hash(FingerprintInput(b)), "-" + PhaseName(b.phase) + "-" + Decimal(b.number), EventId(hash, b));
  }

  lemma CutAt16(digest: string, rest: string, id: string)
    requires |digest| == 16 && id == digest + rest
    ensures id[..16] == digest && id[16..] == rest
  {}

  lemma SameFields(a: Event, b: Event)
    requires CleanIdentity(a) && CleanIdentity(b) && FingerprintInput(a) == FingerprintInput(b)
    ensures a.node == b.node && a.tier == b.tier && a.device == b.device && a.condition == b.condition
  {
    hide Join, Split;
    var pa, pb := [a.node, a.tier, a.device, a.condition], [b.node, b.tier, b.device, b.condition];
    SplitJoin(pa, NUL);
    SplitJoin(pb, NUL);
    assert pa == pb;
    assert pa[0] == pb[0] && pa[1] == pb[1] && pa[2] == pb[2] && pa[3] == pb[3];
  }

  lemma SamePhaseAndNumber(p: Phase, m: nat, q: Phase, n: nat)
    requires "-" + PhaseName(p) + "-" + Decimal(m) == "-" + PhaseName(q) + "-" + Decimal(n)
    ensures p == q && m == n
  {
    var a, b := "-" + PhaseName(p) + "-" + Decimal(m), "-" + PhaseName(q) + "-" + Decimal(n);
    assert a[2] == (if p == Enter then 'N' else 'X');
    assert b[2] == (if q == Enter then 'N' else 'X');
    var k := if p == Enter then 7 else 6;
    assert a[k..] == Decimal(m) && b[k..] == Decimal(n);
    DecimalValue(m);
    DecimalValue(n);
  }
}
