/** One entry of the evidence chain, the hash it recomputes to, and how a writer places
    one record after another.

    SHA-256, the instant rendering and the canonical JSON texts are parameters; an
    argument one of them rejects is `None`. Only documents that `_read_entry` accepts are
    entries here. */
module EvidenceEntry {
  import opened Outcomes
  import opened Preimage

  const PREIMAGE_VERSION := "sayfirst-control-plane/evidence/v1"

  /** A principal document. Only `kind`, `id` and `via` are rendered; `rest` is what else
      it carries, and `via` that is not a list makes the recipe inapplicable. */
  datatype Principal =
    | Principal(kind: string, id: string, via: seq<Principal>, rest: string)
    | ViaNotAList(kind: string, id: string)
    | NotAnObject

  /** What the preimage renders of a principal. */
  datatype PrincipalDocument = PrincipalDocument(kind: string, id: string, via: seq<PrincipalDocument>)

  const KNOWN_KINDS := {"effect", "grade", "gap", "composition", "recovery"}

  /** An entry's body, by its kind. `rest` stands for all its members that no rule here
      looks at. The kind belongs to the entry, so a body's text does not hold it. */
  datatype AnyBody =
    | Effect(decisionId: string, capability: string, policyVersion: string, outcome: string,
             reason: string, ruleId: Option<string>, argumentsDigest: Option<string>,
             references: Option<seq<string>>, recipe: Option<string>, rest: string)
    | GradeRecord(grade: string, rest: string)
    | Gap(reason: string, count: int, decisionIds: Option<seq<string>>, rest: string)
    | Composition(rest: string)
    | Recovery(cleanStop: bool, fromSequence: int, throughSequence: int, rest: string)
    | OtherKind(kind: string, rest: string)

  /** A kind this generation defines is read as that kind, never as another. */
  type Body = b: AnyBody | b.OtherKind? ==> b.kind !in KNOWN_KINDS witness AnyBody.Composition("")

  function KindOf(b: Body): string {
    match b
    case Effect(_, _, _, _, _, _, _, _, _, _) => "effect"
    case GradeRecord(_, _) => "grade"
    case Gap(_, _, _, _) => "gap"
    case Composition(_) => "composition"
    case Recovery(_, _, _, _) => "recovery"
    case OtherKind(kind, _) => kind
  }

  datatype Entry = Entry(
    scope: string,
    sequence: nat,
    recordedAt: string,
    connectionId: string,
    principal: Principal,
    body: Body,
    previousHash: Option<string>,
    entryHash: string,
    preimageVersion: string)

  datatype Recipes = Recipes(
    hash: string -> string,
    instant: string -> Option<string>,
    principalJson: PrincipalDocument -> string,
    bodyJson: Body -> string)

  // -- the recipe ---------------------------------------------------------------------

  function Rendered(p: Principal): Option<PrincipalDocument> {
    match p
    case Principal(kind, id, via, _) =>
      var items := RenderedAll(via);
      if items == None then None else Some(PrincipalDocument(kind, id, items.value))
    case _ => None
  }

  function RenderedAll(via: seq<Principal>): Option<seq<PrincipalDocument>> {
    if via == [] then Some([])
    else
      var first, rest := Rendered(via[0]), RenderedAll(via[1..]);
      if first == None || rest == None then None else Some([first.value] + rest.value)
  }

  /** The normalised document, as a principal of its own. */
  function AsPrincipal(d: PrincipalDocument): Principal {
    Principal(d.kind, d.id, AsPrincipals(d.via), "")
  }

  function AsPrincipals(via: seq<PrincipalDocument>): seq<Principal> {
    if via == [] then [] else [AsPrincipal(via[0])] + AsPrincipals(via[1..])
  }

  /** Rendering what was rendered changes nothing. */
  lemma {:induction false} RenderingIsIdempotent(d: PrincipalDocument)
    ensures Rendered(AsPrincipal(d)) == Some(d)
  {
    RenderingAllIsIdempotent(d.via);
  }

  lemma {:induction false} RenderingAllIsIdempotent(via: seq<PrincipalDocument>)
    ensures RenderedAll(AsPrincipals(via)) == Some(via)
  {
    if via != [] {
      RenderingIsIdempotent(via[0]);
      RenderingAllIsIdempotent(via[1..]);
      assert AsPrincipals(via)[1..] == AsPrincipals(via[1..]);
      assert via == [via[0]] + via[1..];
    }
  }

  function Components(r: Recipes, e: Entry): Option<seq<Option<string>>> {
    var instant, principal := r.instant(e.recordedAt), Rendered(e.principal);
    if instant == None || principal == None then None
    else Some([
      Some(PREIMAGE_VERSION),
      Some(e.scope),
      Some(Decimal(e.sequence)),
      Some(KindOf(e.body)),
      Some(instant.value),
      Some(e.connectionId),
      Some(r.principalJson(principal.value)),
      Some(r.bodyJson(e.body)),
      e.previousHash])
  }

  /** What the preimage of an entry hashes to, if it has one. */
  function EntryHash(r: Recipes, e: Entry): Option<string> {
    var components := Components(r, e);
    if components == None then None else Some(r.hash(Join(components.value)))
  }

  /** The one thing the verifier asks of a recipe: what an entry recomputes to. */
  type Hasher = Entry -> Option<string>

  function HasherOf(r: Recipes): Hasher { (e: Entry) => EntryHash(r, e) }

  // -- placing a record after its predecessor ----------------------------------------------

  datatype Record = Record(scope: string, recordedAt: string, connectionId: string, principal: Principal, body: Body)

  datatype PlacingError = AnotherScope | Inapplicable

  function ChainedDocument(r: Recipes, record: Record, previous: Option<Entry>): Result<Entry, PlacingError> {
    if previous.Some? && previous.value.scope != record.scope then Err(AnotherScope)
    else
      var principal := Rendered(record.principal);
      if principal == None then Err(Inapplicable)
      else
        var placed := Entry(
          record.scope,
          if previous == None then 1 else previous.value.sequence + 1,
          record.recordedAt,
          record.connectionId,
          AsPrincipal(principal.value),
          record.body,
          if previous == None then None else Some(previous.value.entryHash),
          "",
          PREIMAGE_VERSION);
        match EntryHash(r, placed)
        case None => Err(Inapplicable)
        case Some(hash) => Ok(placed.(entryHash := hash))
  }

  type Placer = (Record, Option<Entry>) -> Result<Entry, PlacingError>

  function PlacerOf(r: Recipes): Placer {
    (record: Record, previous: Option<Entry>) => ChainedDocument(r, record, previous)
  }

  /** An entry that declares the recipe and recomputes under it. */
  predicate Verifies(h: Hasher, e: Entry) {
    e.preimageVersion == PREIMAGE_VERSION && h(e) == Some(e.entryHash)
  }

  predicate Follows(previous: Entry, e: Entry) {
    && e.sequence == previous.sequence + 1
    && e.previousHash == Some(previous.entryHash)
  }

  /** What a writer places verifies, carries the record, and follows what it was placed after. */
  lemma PlacedVerifies(r: Recipes, record: Record, previous: Option<Entry>)
    ensures match ChainedDocument(r, record, previous)
      case Err(AnotherScope) => previous.Some? && previous.value.scope != record.scope
      case Err(Inapplicable) => Rendered(record.principal) == None || r.instant(record.recordedAt) == None
      case Ok(e) =>
        && Verifies(HasherOf(r), e)
        && e.scope == record.scope && e.body == record.body && e.connectionId == record.connectionId
        && Rendered(e.principal) == Rendered(record.principal)
        && (match previous case None => e.sequence == 1 && e.previousHash == None case Some(p) => Follows(p, e))
  {
    if Rendered(record.principal).Some? {
      RenderingIsIdempotent(Rendered(record.principal).value);
    }
    match ChainedDocument(r, record, previous) {
      case Ok(e) =>
        assert Components(r, e) == Components(r, e.(entryHash := ""));
      case _ =>
    }
  }

  // -- what a hash fixes --------------------------------------------------------------------

  /** Everything the preimage renders: the entry up to its rendered instant, its normalised
      principal, and the hash and version it is judged against. */
  datatype Hashed = Hashed(
    scope: string,
    sequence: nat,
    instant: Option<string>,
    connectionId: string,
    principal: Option<PrincipalDocument>,
    body: Body,
    previousHash: Option<string>)

  function HashedPart(r: Recipes, e: Entry): Hashed {
    Hashed(e.scope, e.sequence, r.instant(e.recordedAt), e.connectionId, Rendered(e.principal), e.body, e.previousHash)
  }

  /** No two preimages share a hash. */
  ghost predicate CollisionFree(r: Recipes) {
    forall x, y :: r.hash(x) == r.hash(y) ==> x == y
  }

  /** No two documents of one sort share a canonical text: no two principals, and no two
      bodies of one kind. Bodies of two kinds may, for a body's text does not say its kind. */
  ghost predicate CanonicalTexts(r: Recipes) {
    && (forall p, q :: r.principalJson(p) == r.principalJson(q) ==> p == q)
    && (forall b: Body, c: Body :: KindOf(b) == KindOf(c) && r.bodyJson(b) == r.bodyJson(c) ==> b == c)
  }

  /** Two verifying entries with one hash have the same components. */
  lemma HashFixesTheComponents(r: Recipes, e: Entry, f: Entry)
    requires CollisionFree(r)
    requires Verifies(HasherOf(r), e) && Verifies(HasherOf(r), f) && e.entryHash == f.entryHash
    ensures Components(r, e).Some? && Components(r, e) == Components(r, f)
  {
    var a, b := Components(r, e).value, Components(r, f).value;
    assert r.hash(Join(a)) == r.hash(Join(b));
    JoinReadsBack(a, b);
  }

  /** And so agree in everything that was hashed, the kind included. */
  lemma HashFixesTheEntry(r: Recipes, e: Entry, f: Entry)
    requires CollisionFree(r) && CanonicalTexts(r)
    requires Verifies(HasherOf(r), e) && Verifies(HasherOf(r), f) && e.entryHash == f.entryHash
    ensures HashedPart(r, e) == HashedPart(r, f)
  {
    HashFixesTheComponents(r, e, f);
    var a, b := Components(r, e).value, Components(r, f).value;
    assert a[1] == b[1] && a[2] == b[2] && a[3] == b[3] && a[4] == b[4] && a[5] == b[5] && a[6] == b[6];
    assert a[7] == b[7] && a[8] == b[8];
    assert KindOf(e.body) == KindOf(f.body);
    DecimalIsInjective(e.sequence, f.sequence);
  }

  // -- why the kind has to be hashed -----------------------------------------------------------

  /** Canonical JSON as it is: the text of a body is the text of its members, whatever its kind. */
  ghost predicate TextsHoldNoKind(r: Recipes) {
    forall kind: string, rest: string | kind !in KNOWN_KINDS ::
      r.bodyJson(OtherKind(kind, rest)) == r.bodyJson(Composition(rest))
  }

  /** Under such texts two bodies of different kinds share one, and only the kind's own
      component keeps their entries apart. */
  lemma OnlyTheKindComponentTellsKindsApart(r: Recipes, e: Entry, kind: string)
    requires TextsHoldNoKind(r) && kind !in KNOWN_KINDS && e.body.Composition? && Components(r, e).Some?
    ensures var f := e.(body := OtherKind(kind, e.body.rest));
      && Components(r, f).Some?
      && Components(r, e).value[3] != Components(r, f).value[3]
      && (forall i :: 0 <= i < 9 && i != 3 ==> Components(r, e).value[i] == Components(r, f).value[i])
  {
    var f := e.(body := OtherKind(kind, e.body.rest));
    assert r.bodyJson(f.body) == r.bodyJson(e.body);
    assert KindOf(e.body) == "composition" && KindOf(f.body) == kind;
  }
}
