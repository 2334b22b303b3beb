/** The QSO REST endpoints: what each returns for each service outcome.
    The caller's id is a parameter (it comes from the authentication
    token); request bodies are assumed to have passed bean validation. */
module Controller {
  import opened Common
  import opened Enums
  import opened Temporal
  import opened Ids
  import opened QsoEntity
  import opened Repository
  import opened Service

  /** The body of a 409 answer to an unconfirmed duplicate. */
  datatype DuplicateWarning = DuplicateWarning(kind: string, message: string, existingIds: seq<Uuid>)

  const DuplicateDetected := "duplicate_detected"
  const DuplicateWarningText := "Potential duplicate QSO detected. Pass confirmDuplicate=true to force save."

  /** `DuplicateWarningResponse.of`. */
  function WarningOf(ids: seq<Uuid>): (w: DuplicateWarning)
    ensures w.existingIds == ids && w.kind == DuplicateDetected && w.message == DuplicateWarningText
  {
    DuplicateWarning(DuplicateDetected, DuplicateWarningText, ids)
  }

  /** What `POST /api/v1/qso` answers. */
  datatype CreateResponse =
    | Created(qso: QsoRecord)
    | Conflict(warning: DuplicateWarning)
    | Failed(error: ServiceError)
  {
    function StatusCode(): nat {
      match this
      case Created(_) => 201
      case Conflict(_) => 409
      case Failed(e) => e.StatusCode()
    }
  }

  /** The create endpoint's mapping of the service outcome: a duplicate
      exception becomes a warning body, every other error passes through. */
  function CreateResponseOf(out: Result<QsoRecord, ServiceError>): CreateResponse {
    match out
    case Ok(q) => Created(q)
    case Err(DuplicateQso(_, ids)) => Conflict(WarningOf(ids))
    case Err(e) => Failed(e)
  }

  /** The mapping keeps the saved row and the reported ids. */
  lemma ResponseOfOutcome(out: Result<QsoRecord, ServiceError>)
    ensures var resp := CreateResponseOf(out);
      && (resp.Created? <==> out.Ok?) && (resp.Created? ==> resp.qso == out.value)
      && (resp.Conflict? <==> out.Err? && out.error.DuplicateQso?)
      && (resp.Conflict? ==> resp.warning == WarningOf(out.error.existingIds) && resp.StatusCode() == 409)
      && (resp.Failed? ==> resp.error == out.error && resp.StatusCode() == out.error.StatusCode())
  {
  }

  /** The create endpoint's answer to a request. */
  function CreateAnswer(rows: seq<QsoRecord>, userId: Uuid, c: Contact, confirmDuplicate: bool,
                        newId: Uuid, now: CreateClock): CreateResponse
  {
    CreateResponseOf(CreateOutcome(rows, userId, c, confirmDuplicate, newId, now))
  }

  /** The create endpoint answers 201 with a new record exactly when band
      and mode are valid and the caller confirmed or nothing matches. */
  lemma CreatedIffValidAndNew(rows: seq<QsoRecord>, userId: Uuid, c: Contact, confirmDuplicate: bool,
                              newId: Uuid, now: CreateClock)
    ensures var resp := CreateAnswer(rows, userId, c, confirmDuplicate, newId, now);
      && (resp.Created? <==>
            RequestError(c).None? && (confirmDuplicate || forall x | x in rows :: !SameContact(x, userId, c)))
      && (resp.Created? ==> resp.StatusCode() == 201 && IsNewRecord(resp.qso, newId, userId, c, now))
  {
    ResponseOfOutcome(CreateOutcome(rows, userId, c, confirmDuplicate, newId, now));
    CreateSucceedsIff(rows, userId, c, confirmDuplicate, newId, now);
  }

  /** It answers 409 exactly for an unconfirmed duplicate of a valid
      request, with the warning listing the matching ids. */
  lemma ConflictIffDuplicate(rows: seq<QsoRecord>, userId: Uuid, c: Contact, confirmDuplicate: bool,
                             newId: Uuid, now: CreateClock)
    ensures var resp := CreateAnswer(rows, userId, c, confirmDuplicate, newId, now);
      && (resp.Conflict? <==>
            RequestError(c).None? && !confirmDuplicate && exists x | x in rows :: SameContact(x, userId, c))
      && (resp.Conflict? ==> resp.warning == WarningOf(IdsOf(DuplicatesOf(rows, userId, c))))
  {
    ResponseOfOutcome(CreateOutcome(rows, userId, c, confirmDuplicate, newId, now));
    CreateErrorKinds(rows, userId, c, confirmDuplicate, newId, now);
    if RequestError(c).None? && !confirmDuplicate && exists x | x in rows :: SameContact(x, userId, c) {
      DuplicateReported(rows, userId, c, newId, now);
    } else {
      CreateSucceedsIff(rows, userId, c, confirmDuplicate, newId, now);
    }
  }

  /** Every other answer is the 400 of the request's validation error. */
  lemma FailedIsValidationError(rows: seq<QsoRecord>, userId: Uuid, c: Contact, confirmDuplicate: bool,
                                newId: Uuid, now: CreateClock)
    ensures var resp := CreateAnswer(rows, userId, c, confirmDuplicate, newId, now);
      resp.Failed? <==> RequestError(c).Some?
    ensures var resp := CreateAnswer(rows, userId, c, confirmDuplicate, newId, now);
      resp.Failed? ==> resp.StatusCode() == 400 && resp.error == RequestError(c).value
  {
    ResponseOfOutcome(CreateOutcome(rows, userId, c, confirmDuplicate, newId, now));
    CreateErrorKinds(rows, userId, c, confirmDuplicate, newId, now);
  }

  /** The body of `PUT /api/v1/qso/{id}`: the thirteen contact fields and
      three optional confirmation statuses. */
  datatype UpdateRequest = UpdateRequest(
    contact: Contact,
    qslStatus: Option<QslStatus>,
    lotwStatus: Option<LotwStatus>,
    eqslStatus: Option<EqslStatus>)

  /** What the update endpoint yields as written: the service update, the
      statuses set on the returned entity, then a second service update
      with the entity's contact fields. */
  function UpdateAsWrittenOutcome(rows: seq<QsoRecord>, id: Uuid, userId: Uuid, req: UpdateRequest,
                                  now: Instant, later: Instant): Result<QsoRecord, ServiceError>
  {
    match UpdateOutcome(rows, id, userId, req.contact, now)
    case Err(e) => Err(e)
    case Ok(first) =>
      var patched := WithStatuses(first, req.qslStatus, req.lotwStatus, req.eqslStatus);
      UpdateOutcome(Upsert(rows, first), patched.id, userId, patched.contact, later)
  }

  /** The rows after the update endpoint as written. */
  function UpdateAsWrittenRows(rows: seq<QsoRecord>, id: Uuid, userId: Uuid, req: UpdateRequest,
                               now: Instant, later: Instant): seq<QsoRecord>
  {
    match UpdateOutcome(rows, id, userId, req.contact, now)
    case Err(_) => rows
    case Ok(first) =>
      var mid := Upsert(rows, first);
      var patched := WithStatuses(first, req.qslStatus, req.lotwStatus, req.eqslStatus);
      match UpdateOutcome(mid, patched.id, userId, patched.contact, later)
      case Err(_) => mid
      case Ok(second) => Upsert(mid, second)
  }

  /** What the update endpoint evidently intends: the service update, then
      the given statuses saved on the same row. */
  function UpdateOutcomeWithStatuses(rows: seq<QsoRecord>, id: Uuid, userId: Uuid, req: UpdateRequest,
                                     now: Instant, later: Instant): Result<QsoRecord, ServiceError>
  {
    match UpdateOutcome(rows, id, userId, req.contact, now)
    case Err(e) => Err(e)
    case Ok(first) =>
      StatusUpdateOutcome(Upsert(rows, first), id, userId, req.qslStatus, req.lotwStatus, req.eqslStatus, later)
  }

  /** The rows after the corrected update endpoint. */
  function UpdateRowsWithStatuses(rows: seq<QsoRecord>, id: Uuid, userId: Uuid, req: UpdateRequest,
                                  now: Instant, later: Instant): seq<QsoRecord>
  {
    match UpdateOutcome(rows, id, userId, req.contact, now)
    case Err(_) => rows
    case Ok(first) =>
      var mid := Upsert(rows, first);
      match StatusUpdateOutcome(mid, id, userId, req.qslStatus, req.lotwStatus, req.eqslStatus, later)
      case Err(_) => mid
      case Ok(second) => Upsert(mid, second)
  }

  /** As written, the second update re-reads the row the first one saved
      and copies only the contact fields, so a successful update keeps
      every stored status, whatever the request asked for. */
  lemma UpdateAsWrittenKeepsStoredStatuses(rows: seq<QsoRecord>, id: Uuid, userId: Uuid, req: UpdateRequest,
                                           now: Instant, later: Instant)
    requires UniqueIds(rows)
    ensures var out := UpdateAsWrittenOutcome(rows, id, userId, req, now, later);
      && (out.Ok? <==> UpdateOutcome(rows, id, userId, req.contact, now).Ok?)
      && (out.Ok? ==> exists x | x in rows ::
            && x.id == id && x.userId == userId
            && out.value == x.(contact := req.contact, updatedAt := later))
  {
    var first := UpdateOutcome(rows, id, userId, req.contact, now);
    UpdateOutcomes(rows, id, userId, req.contact, now);
    if first.Ok? {
      UpsertKeepsIdsUnique(rows, first.value);
    }
  }

  /** The discrepancy: a request that sets a status on a row stored with a
      different one succeeds, yet the answer and the stored row keep the
      old status. */
  lemma UpdateAsWrittenDropsQslStatus(rows: seq<QsoRecord>, id: Uuid, userId: Uuid, req: UpdateRequest,
                                      now: Instant, later: Instant)
    requires UniqueIds(rows)
    requires UpdateOutcome(rows, id, userId, req.contact, now).Ok?
    requires req.qslStatus.Some?
    requires forall x | x in rows && x.id == id && x.userId == userId :: x.qslStatus != req.qslStatus
    ensures UpdateAsWrittenOutcome(rows, id, userId, req, now, later).Ok?
    ensures UpdateAsWrittenOutcome(rows, id, userId, req, now, later).value.qslStatus != req.qslStatus
  {
    UpdateAsWrittenKeepsStoredStatuses(rows, id, userId, req, now, later);
  }

  /** Corrected, a successful update answers and stores the row with the
      new contact fields and each given status, the others as stored. */
  lemma UpdateWithStatusesStoresThem(rows: seq<QsoRecord>, id: Uuid, userId: Uuid, req: UpdateRequest,
                                     now: Instant, later: Instant)
    requires UniqueIds(rows)
    ensures var out := UpdateOutcomeWithStatuses(rows, id, userId, req, now, later);
      && (out.Ok? <==> UpdateOutcome(rows, id, userId, req.contact, now).Ok?)
      && (out.Ok? ==>
            && (exists x | x in rows ::
                  && x.id == id && x.userId == userId
                  && out.value == WithStatuses(x, req.qslStatus, req.lotwStatus, req.eqslStatus)
                                    .(contact := req.contact, updatedAt := later))
            && UniqueIds(UpdateRowsWithStatuses(rows, id, userId, req, now, later))
            && FindByIdAndUserId(UpdateRowsWithStatuses(rows, id, userId, req, now, later), id, userId)
               == Some(out.value))
  {
    var first := UpdateOutcome(rows, id, userId, req.contact, now);
    UpdateOutcomes(rows, id, userId, req.contact, now);
    if first.Ok? {
      UpsertKeepsIdsUnique(rows, first.value);
      var mid := Upsert(rows, first.value);
      var second := StatusUpdateOutcome(mid, id, userId, req.qslStatus, req.lotwStatus, req.eqslStatus, later);
      UpsertKeepsIdsUnique(mid, second.value);
    }
  }

  /** The endpoints over one service. */
  class QsoController {
    const service: QsoService

    constructor (service: QsoService)
      ensures this.service == service
    {
      this.service := service;
    }

    predicate Valid()
      reads this, service, service.store
    {
      service.Valid()
    }

    /** `POST /api/v1/qso`. */
    method CreateQso(userId: Uuid, c: Contact, confirmDuplicate: bool, newId: Uuid, now: CreateClock)
      returns (resp: CreateResponse)
      requires Valid()
      modifies service.store
      ensures resp == CreateAnswer(old(service.store.rows), userId, c, confirmDuplicate, newId, now)
      ensures service.store.rows == (if resp.Created? then Upsert(old(service.store.rows), resp.qso)
                                     else old(service.store.rows))
      ensures Valid()
    {
      var out := service.CreateQso(userId, c, confirmDuplicate, newId, now);
      resp := CreateResponseOf(out);
    }

    /** `GET /api/v1/qso`: page 0 and size 20 unless given. */
    function GetAllQsos(userId: Uuid, callsign: Option<string>, band: Option<string>, from: Option<LocalDate>,
                        to: Option<LocalDate>, page: Option<Int32>, size: Option<Int32>): (r: Option<seq<QsoRecord>>)
      reads this, service, service.store
      ensures r == FindAllOutcome(service.store.rows, userId, callsign, band, from, to, page.GetOr(0), size.GetOr(20))
      ensures page.None? && size.None? ==> r.Some? && |r.value| <= 20
    {
      var r := service.FindAll(userId, callsign, band, from, to, page.GetOr(0), size.GetOr(20));
      if page.None? && size.None? then
        FindAllListsOwnRows(service.store.rows, userId, callsign, band, from, to, 0, 20);
        r
      else r
    }

    /** `GET /api/v1/qso/{id}`: the caller's row with that id, or 404
        exactly when the caller owns no row with that id. */
    function GetQsoById(id: Uuid, userId: Uuid): (r: Result<QsoRecord, ServiceError>)
      reads this, service, service.store
      ensures r.Ok? ==> r.value in service.store.rows && r.value.id == id && r.value.userId == userId
      ensures r.Err? <==> forall x | x in service.store.rows :: !(x.id == id && x.userId == userId)
      ensures r.Err? ==> r.error == NotFound(QsoNotFound) && r.error.StatusCode() == 404
    {
      service.FindById(id, userId)
    }

    /** `PUT /api/v1/qso/{id}` as written. */
    method UpdateQsoAsWritten(id: Uuid, userId: Uuid, req: UpdateRequest, now: Instant, later: Instant)
      returns (r: Result<QsoRecord, ServiceError>)
      requires Valid()
      modifies service.store
      ensures r == UpdateAsWrittenOutcome(old(service.store.rows), id, userId, req, now, later)
      ensures service.store.rows == UpdateAsWrittenRows(old(service.store.rows), id, userId, req, now, later)
      ensures Valid()
    {
      var first := service.UpdateQso(id, userId, req.contact, now);
      if first.Err? {
        return first;
      }
      var qso := Load(first.value);
      SetGivenStatuses(qso, req.qslStatus, req.lotwStatus, req.eqslStatus);
      var patched := qso.Snapshot();
      r := service.UpdateQso(patched.id, userId, patched.contact, later);
    }

    /** `PUT /api/v1/qso/{id}`, with the statuses saved. */
    method UpdateQso(id: Uuid, userId: Uuid, req: UpdateRequest, now: Instant, later: Instant)
      returns (r: Result<QsoRecord, ServiceError>)
      requires Valid()
      modifies service.store
      ensures r == UpdateOutcomeWithStatuses(old(service.store.rows), id, userId, req, now, later)
      ensures service.store.rows == UpdateRowsWithStatuses(old(service.store.rows), id, userId, req, now, later)
      ensures Valid()
    {
      var first := service.UpdateQso(id, userId, req.contact, now);
      if first.Err? {
        return first;
      }
      r := service.UpdateStatuses(id, userId, req.qslStatus, req.lotwStatus, req.eqslStatus, later);
    }

    /** `DELETE /api/v1/qso/{id}`: 204 on success. */
    method DeleteQso(id: Uuid, userId: Uuid) returns (e: Option<ServiceError>)
      requires Valid()
      modifies service.store
      ensures e == DeleteOutcome(old(service.store.rows), id, userId)
      ensures service.store.rows == (if e.None? then Deleted(old(service.store.rows), id, userId)
                                     else old(service.store.rows))
      ensures Valid()
    {
      e := service.DeleteQso(id, userId);
    }
  }
}
