/** `RegisterProject` and its idempotency ledger (src/write/register.rs,
    src/idem.rs). */
module Registration {
  import opened Like
  import opened Outcome
  import opened Paths
  import opened Registry
  import opened Text

  const MAX_DISPLAY_NAME_CHARS := 255
  const RPC := "RegisterProject"

  /** The gateway's attestation. Only its project and its user are ever read. */
  datatype Scope = Scope(
    projectId: string, userId: string, teamIds: seq<string>, instanceId: string, requestId: string)

  /** An absent key is `None`. */
  datatype RegisterRequest = RegisterRequest(
    scope: Scope, idemKey: Option<string>, path: string, displayName: string, sourceRepo: string)

  /** `present`: an absent or empty key does not participate. */
  function LedgerKeyOf(req: RegisterRequest): Option<LedgerKey> {
    if req.idemKey.Some? && req.idemKey.value != "" then
      Some(LedgerKey(req.scope.projectId, req.scope.userId, req.idemKey.value))
    else
      None
  }

  /** `payload`: everything but the scope and the key. */
  function PayloadOf(req: RegisterRequest): Payload {
    Payload(req.path, req.displayName, req.sourceRepo)
  }

  /** `Class::of`. */
  function ClassOf(path: string, actor: string, sourceRepo: string): Result<()> {
    if !IsPrivateClass(path) then Err(FailedPrecondition)
    else
      var segment := AccountSegment(actor);
      if segment.None? then Err(InvalidArgument)
      else if !IsUnderOwnRoot(path, segment.value) then Err(PermissionDenied)
      else if sourceRepo != "" then Err(InvalidArgument)
      else Ok(())
  }

  /** Every check made before a transaction is opened. */
  function Precheck(req: RegisterRequest): Result<()> {
    if !ValidPath(req.path) then Err(InvalidArgument)
    else if IsReservedRoot(req.path) then Err(InvalidArgument)
    else if |req.displayName| > MAX_DISPLAY_NAME_CHARS then Err(InvalidArgument)
    else ClassOf(req.path, req.scope.userId, req.sourceRepo)
  }

  function PrivateRow(req: RegisterRequest): Row {
    Row(req.path, req.displayName, Active, None, Some(req.scope.userId), Private, 1, req.scope.userId, req.scope.userId)
  }

  /** `meta_of`. */
  function MetaOf(req: RegisterRequest, id: Id): Meta {
    Meta(id, 1, req.path, req.scope.userId, req.scope.userId, req.scope.userId)
  }

  /** `replay`: what a used key answers. */
  function ReplayOf(claim: Claim, rpc: string, payload: Payload): Result<Option<Meta>> {
    if claim.rpc != rpc then Err(InvalidArgument)
    else if claim.fingerprint != payload then Err(InvalidArgument)
    else Ok(claim.response)
  }

  function ClaimWrites(req: RegisterRequest): seq<Write> {
    var key := LedgerKeyOf(req);
    if key.None? then [] else [InsertClaim(key.value, Claim(RPC, PayloadOf(req), None))]
  }

  function RecordWrites(req: RegisterRequest, id: Id): seq<Write> {
    var key := LedgerKeyOf(req);
    if key.None? then [] else [RecordResponse(key.value, MetaOf(req, id))]
  }

  /** Every write of a registration that goes through, in order. */
  function RegisterWrites(req: RegisterRequest, id: Id): seq<Write> {
    ClaimWrites(req) + [InsertRow(id, PrivateRow(req))] + RecordWrites(req, id)
  }

  /** The registry once a registration has gone through. */
  function RegisteredStore(s: Store, req: RegisterRequest, id: Id): Store {
    var key := LedgerKeyOf(req);
    s.(projects := s.projects[id := PrivateRow(req)],
       ledger := if key.None? then s.ledger else s.ledger[key.value := Claim(RPC, PayloadOf(req), Some(MetaOf(req, id)))])
  }

  /** The request takes part in the ledger, under this key. */
  predicate SentUnder(req: RegisterRequest, key: LedgerKey) {
    req.idemKey == Some(key.idemKey) && key.idemKey != "" && req.scope.projectId == key.projectId && req.scope.userId == key.userId
  }

  /** Some claim stands under the request's key. */
  ghost predicate KeyUsed(s: Store, req: RegisterRequest) {
    exists key :: key in s.ledger && SentUnder(req, key)
  }

  /** Both take part, under one key. */
  predicate SameKey(a: RegisterRequest, b: RegisterRequest) {
    && a.idemKey.Some? && a.idemKey.value != ""
    && a.idemKey == b.idemKey && a.scope.projectId == b.scope.projectId && a.scope.userId == b.scope.userId
  }

  /** A registration run alone: its answer and the registry it leaves. */
  ghost function Register(s: Store, req: RegisterRequest, id: Id): (Result<Option<Meta>>, Store) {
    if Precheck(req).Err? then (Err(Precheck(req).code), s)
    else if KeyUsed(s, req) then (ReplayOf(s.ledger[LedgerKeyOf(req).value], RPC, PayloadOf(req)), s)
    else if AliasAt(s, Fold(req.path)) then (Err(AlreadyExists), s)
    else if LiveAt(s, Fold(req.path)) then (Err(AlreadyExists), s)
    else (Ok(Some(MetaOf(req, id))), RegisteredStore(s, req, id))
  }

  /** A request that passes the checks names a private row its caller owns. */
  lemma PrecheckedRowIsSound(req: RegisterRequest)
    requires Precheck(req).Ok?
    ensures RowChecks(PrivateRow(req)) && LegalPath(req.path) && OwnedRow(PrivateRow(req)) && !IsOrg(PrivateRow(req))
  {
    ClassCheckAgrees(req.path);
  }

  /** The tables once the key is claimed. */
  ghost function ClaimedStore(s: Store, req: RegisterRequest): Store {
    var key := LedgerKeyOf(req);
    if key.None? then s else s.(ledger := s.ledger[key.value := Claim(RPC, PayloadOf(req), None)])
  }

  /** The engine refuses the insert on the unique index or not at all. */
  lemma InsertDecides(s: Store, req: RegisterRequest, id: Id)
    requires Precheck(req).Ok? && id !in s.projects
    ensures var t := ClaimedStore(s, req);
      Exec(t, InsertRow(id, PrivateRow(req))) ==
        if LiveAt(s, Fold(req.path)) then None else Some(t.(projects := t.projects[id := PrivateRow(req)]))
    ensures LedgerKeyOf(req).None? ==> s.(projects := s.projects[id := PrivateRow(req)]) == RegisteredStore(s, req, id)
  {
    var t := ClaimedStore(s, req);
    PrecheckedRowIsSound(req);
    assert LiveAt(t, Fold(PrivateRow(req).path)) == LiveAt(s, Fold(req.path));
  }

  lemma RecordFinishes(s: Store, req: RegisterRequest, id: Id)
    requires LedgerKeyOf(req).Some? && !KeyUsed(s, req)
    ensures var t := ClaimedStore(s, req);
      Exec(t.(projects := t.projects[id := PrivateRow(req)]), RecordResponse(LedgerKeyOf(req).value, MetaOf(req, id)))
        == Some(RegisteredStore(s, req, id))
  {
    var t := ClaimedStore(s, req);
    assert t.ledger[LedgerKeyOf(req).value := t.ledger[LedgerKeyOf(req).value].(response := Some(MetaOf(req, id)))]
      == RegisteredStore(s, req, id).ledger;
  }

  lemma KeyedWritesApply(s: Store, req: RegisterRequest, id: Id)
    requires Precheck(req).Ok? && id !in s.projects && !KeyUsed(s, req) && !LiveAt(s, Fold(req.path)) && LedgerKeyOf(req).Some?
    ensures Reaches(s, RegisterWrites(req, id), RegisteredStore(s, req, id))
  {
    var t := ClaimedStore(s, req);
    InsertDecides(s, req, id);
    RecordFinishes(s, req, id);
    ReachesThree(s, ClaimWrites(req)[0], t, InsertRow(id, PrivateRow(req)), t.(projects := t.projects[id := PrivateRow(req)]),
      RecordWrites(req, id)[0], RegisteredStore(s, req, id));
    assert RegisterWrites(req, id) == [ClaimWrites(req)[0], InsertRow(id, PrivateRow(req)), RecordWrites(req, id)[0]];
  }

  /** No statement of a registration is refused once the key is free and the
      path is taken by nothing. */
  lemma RegisterWritesApply(s: Store, req: RegisterRequest, id: Id)
    requires Precheck(req).Ok? && id !in s.projects && !KeyUsed(s, req) && !LiveAt(s, Fold(req.path))
    ensures Reaches(s, RegisterWrites(req, id), RegisteredStore(s, req, id))
  {
    if LedgerKeyOf(req).None? {
      InsertDecides(s, req, id);
      ReachesOne(s, InsertRow(id, PrivateRow(req)), RegisteredStore(s, req, id));
      assert RegisterWrites(req, id) == [InsertRow(id, PrivateRow(req))];
    } else {
      KeyedWritesApply(s, req, id);
    }
  }

  lemma RegisteredKeepsSchema(s: Store, req: RegisterRequest, id: Id)
    requires Schema(s) && id !in s.projects && !LiveAt(s, Fold(req.path)) && RowChecks(PrivateRow(req))
    ensures Schema(RegisteredStore(s, req, id))
  {
  }

  lemma RegisteredKeepsRules(s: Store, req: RegisterRequest, id: Id)
    requires Rules(s) && id !in s.projects && !AliasAt(s, Fold(req.path)) && LegalPath(req.path) && OwnedRow(PrivateRow(req))
    requires forall g :: g in s.grants ==> g.0 in s.projects
    ensures Rules(RegisteredStore(s, req, id))
  {
    var t := RegisteredStore(s, req, id);
    forall i | i in t.projects
      ensures LegalPath(t.projects[i].path) && OwnedRow(t.projects[i])
    {
      if i != id {
        assert LegalPath(s.projects[i].path) && OwnedRow(s.projects[i]);
      }
    }
    forall i | i in t.projects && ActiveOrg(t.projects[i])
      ensures AnchorOf(t, Fold(t.projects[i].path))
    {
      assert AnchorOf(s, Fold(s.projects[i].path));
      var root :| root in s.projects && ActiveOrg(s.projects[root]) && Fold(s.projects[root].path) == Root(Fold(t.projects[i].path));
      assert root in t.projects && t.projects[root] == s.projects[root];
    }
  }

  /** A registration keeps the schema and the rules. */
  lemma RegisterKeepsValid(s: Store, req: RegisterRequest, id: Id)
    requires Valid(s) && id !in s.projects
    ensures Valid(Register(s, req, id).1)
  {
    RegisterOutcome(s, req, id);
    if Register(s, req, id).1 != s {
      PrecheckedRowIsSound(req);
      RegisteredKeepsSchema(s, req, id);
      RegisteredKeepsRules(s, req, id);
    }
  }

  // ---- The ledger ----

  /** Every claim of this verb names a row that stands at the path it answered. */
  ghost predicate ClaimNamesItsRow(s: Store, key: LedgerKey)
    requires key in s.ledger
  {
    var claim := s.ledger[key];
    claim.rpc == RPC ==>
      && claim.response.Some?
      && claim.response.value.id in s.projects
      && s.projects[claim.response.value.id].path == claim.response.value.projectId == claim.fingerprint.path
      && claim.response.value.ownerUserId == key.userId
  }

  ghost predicate LedgerSound(s: Store) {
    forall key {:trigger ClaimNamesItsRow(s, key)} :: key in s.ledger ==> ClaimNamesItsRow(s, key)
  }

  lemma RegisteredKeepsLedgerSound(s: Store, req: RegisterRequest, id: Id)
    requires LedgerSound(s) && id !in s.projects
    ensures LedgerSound(RegisteredStore(s, req, id))
  {
    var t := RegisteredStore(s, req, id);
    forall key | key in t.ledger
      ensures ClaimNamesItsRow(t, key)
    {
      if key in s.ledger && LedgerKeyOf(req) != Some(key) {
        assert ClaimNamesItsRow(s, key);
      }
    }
  }

  lemma RegisterKeepsLedgerSound(s: Store, req: RegisterRequest, id: Id)
    requires LedgerSound(s) && id !in s.projects
    ensures LedgerSound(Register(s, req, id).1)
  {
    RegisterOutcome(s, req, id);
    RegisteredKeepsLedgerSound(s, req, id);
  }

  /** Either nothing changes, or the registration goes through. */
  lemma RegisterOutcome(s: Store, req: RegisterRequest, id: Id)
    ensures Register(s, req, id).1 == s ||
      (Precheck(req).Ok? && !KeyUsed(s, req) && !AliasAt(s, Fold(req.path)) && !LiveAt(s, Fold(req.path))
       && Register(s, req, id) == (Ok(Some(MetaOf(req, id))), RegisteredStore(s, req, id)))
  {
  }

  /** While its claim stands, a retry under a key that went through writes
      nothing. One with the first's path, name and repository gets its answer,
      whatever id it was minted and whatever else its scope says; one that
      differs in any of the three is refused. */
  lemma RetryAfter(s: Store, req: RegisterRequest, id: Id, later: Store, retry: RegisterRequest, id': Id)
    requires SameKey(req, retry) && Register(s, req, id).1 != s
    requires forall key :: SentUnder(req, key) ==>
      key in later.ledger && key in Register(s, req, id).1.ledger && later.ledger[key] == Register(s, req, id).1.ledger[key]
    ensures Register(later, retry, id').1 == later
    ensures retry.path == req.path && retry.displayName == req.displayName && retry.sourceRepo == req.sourceRepo ==>
      Register(later, retry, id').0 == Register(s, req, id).0
    ensures retry.path != req.path || retry.displayName != req.displayName || retry.sourceRepo != req.sourceRepo ==>
      Register(later, retry, id').0.Err?
  {
    assert SentUnder(req, LedgerKeyOf(req).value);
    assert SentUnder(retry, LedgerKeyOf(req).value);
  }

  /** The claim was made by this verb for this path, name and repository. */
  predicate ClaimedFor(claim: Claim, req: RegisterRequest) {
    && claim.rpc == "RegisterProject" && claim.fingerprint.path == req.path
    && claim.fingerprint.displayName == req.displayName && claim.fingerprint.sourceRepo == req.sourceRepo
  }

  /** A key claimed by another verb, or for another path, name or repository, is
      refused and writes nothing. */
  lemma KeyReuseIsRefused(s: Store, req: RegisterRequest, id: Id, key: LedgerKey)
    requires SentUnder(req, key) && key in s.ledger && !ClaimedFor(s.ledger[key], req)
    ensures Register(s, req, id).0.Err? && Register(s, req, id).1 == s
  {
  }

  // ---- What is accepted ----

  /** A path the caller may register, a name the column holds, no repository. */
  predicate Registrable(req: RegisterRequest) {
    && ValidPath(req.path) && !IsReservedRoot(req.path) && |req.displayName| <= 255
    && OwnsPath(req.scope.userId, req.path) && req.sourceRepo == ""
  }

  /** Refused with this code whatever the registry holds. */
  ghost predicate RefusedOutright(req: RegisterRequest, code: Code) {
    forall s: Store, id: Id :: Register(s, req, id) == (Err(code), s)
  }

  /** A registration is refused before its transaction, so whatever the registry
      holds, exactly when its path is no legal path or not under the caller's own
      root, its name is too wide, or it names a repository; and this is the code
      of each. */
  lemma RefusedOutrightIff(req: RegisterRequest, code: Code)
    ensures RefusedOutright(req, code) <==>
      var path, segment := req.path, AccountSegment(req.scope.userId);
      if !ValidPath(path) || IsReservedRoot(path) || |req.displayName| > 255 then code == InvalidArgument
      else if !IsPrivateClass(path) then code == FailedPrecondition
      else if segment.None? then code == InvalidArgument
      else if !IsUnderOwnRoot(path, segment.value) then code == PermissionDenied
      else req.sourceRepo != "" && code == InvalidArgument
  {
    assert RefusedOutright(req, code) ==> Register(EmptyStore, req, 0) == (Err(code), EmptyStore);
  }

  /** Every other request is one the registry decides on. */
  lemma OthersAreDecidedOn(req: RegisterRequest)
    ensures Registrable(req) <==> forall code :: !RefusedOutright(req, code)
    ensures Registrable(req) <==> Precheck(req).Ok?
  {
    forall code
      ensures RefusedOutright(req, code) ==> !Registrable(req)
    {
      RefusedOutrightIff(req, code);
    }
    if !Registrable(req) {
      assert RefusedOutright(req, Precheck(req).code);
    }
  }

  /** What a registration that goes through leaves: one active private row of the
      caller's, as sent and at version one, its key claimed with the answer, and
      nothing else moved. */
  ghost predicate LeavesRow(s: Store, req: RegisterRequest, id: Id, t: Store) {
    var user := req.scope.userId;
    && t.projects == s.projects[id := Row(req.path, req.displayName, Active, None, Some(user), Private, 1, user, user)]
    && t.aliases == s.aliases && t.grants == s.grants && t.seen == s.seen
    && (forall key :: key in s.ledger ==> key in t.ledger && t.ledger[key] == s.ledger[key])
    && (forall key :: key in t.ledger ==> key in s.ledger || SentUnder(req, key))
    && var claim := Claim("RegisterProject", Payload(req.path, req.displayName, ""), Some(Meta(id, 1, req.path, user, user, user)));
       forall key :: SentUnder(req, key) ==> key in t.ledger && t.ledger[key] == claim
  }

  /** A legal path under the caller's own root, its key free: when the path is
      taken, live or as a former path, the request is refused and nothing is
      stored; when it is taken by nothing the row is stored and answered. */
  lemma LegalIsAccepted(s: Store, req: RegisterRequest, id: Id)
    requires Registrable(req) && !KeyUsed(s, req)
    ensures var user, (r, t) := req.scope.userId, Register(s, req, id);
      if AliasAt(s, Fold(req.path)) || LiveAt(s, Fold(req.path)) then
        r == Err(AlreadyExists) && t == s
      else
        r == Ok(Some(Meta(id, 1, req.path, user, user, user))) && LeavesRow(s, req, id, t)
  {
    OthersAreDecidedOn(req);
    assert LedgerKeyOf(req).Some? ==> SentUnder(req, LedgerKeyOf(req).value);
  }

  /** A key already claimed decides alone: its own answer for the request it was
      claimed by, a refusal for any other, and nothing stored. */
  lemma SpentKeyDecides(s: Store, req: RegisterRequest, id: Id, key: LedgerKey)
    requires Registrable(req) && SentUnder(req, key) && key in s.ledger
    ensures var claim := s.ledger[key];
      Register(s, req, id) == (if ClaimedFor(claim, req) then Ok(claim.response) else Err(InvalidArgument), s)
  {
    OthersAreDecidedOn(req);
  }
}
