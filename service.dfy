/** The QSO use cases: create (with duplicate detection), find, list,
    update and delete, scoped to the calling user. Every request is checked
    band first, then mode; only then is the repository consulted, and only
    a request that passes every check writes. The random id of a new QSO
    and the clock readings are parameters. */
module Service {
  import opened Common
  import opened Text
  import opened Enums
  import opened Temporal
  import opened Ids
  import opened QsoEntity
  import opened Validator
  import opened Repository
  import Grouping

  /** The errors the service signals, each with its HTTP status. */
  datatype ServiceError =
    | BadRequest(message: string)
    | NotFound(message: string)
    | DuplicateQso(message: string, existingIds: seq<Uuid>)
  {
    function StatusCode(): (code: nat)
      ensures code in {400, 404, 409}
    {
      match this
      case BadRequest(_) => 400
      case NotFound(_) => 404
      case DuplicateQso(_, _) => 409
    }
  }

  const QsoNotFound := "QSO not found"
  const ModeValidationFailed := "Mode validation failed: "

  /** The ids of the rows, in order. */
  function IdsOf(rows: seq<QsoRecord>): (ids: seq<Uuid>)
    ensures |ids| == |rows|
    ensures forall i | 0 <= i < |rows| :: ids[i] == rows[i].id
  {
    if rows == [] then [] else [rows[0].id] + IdsOf(rows[1..])
  }

  /** The text of the duplicate exception: the number of matches and the
      list of their ids. */
  function DuplicateMessage(ids: seq<Uuid>): (r: string)
    ensures |r| >= |DuplicateHead| && r[..|DuplicateHead|] == DuplicateHead
    ensures var count := NatToString(|ids|);
      && |r| >= |DuplicateHead| + |count| && r[|DuplicateHead|..|DuplicateHead| + |count|] == count
      && DigitsValue(count) == |ids|
    ensures var list := UuidListToString(ids); |r| >= |list| && r[|r| - |list|..] == list
  {
    var count, list := NatToString(|ids|), UuidListToString(ids);
    var r := DuplicateHead + count + DuplicateMiddle + list;
    DigitsValueOfNatToString(|ids|);
    assert r == DuplicateHead + (count + DuplicateMiddle + list);
    assert r == (DuplicateHead + count) + (DuplicateMiddle + list);
    assert (DuplicateHead + count)[|DuplicateHead|..] == count;
    r
  }

  const DuplicateHead := "Potential duplicate detected (found "
  const DuplicateMiddle := " similar QSO(s)). Pass confirmDuplicate=true to save anyway. Existing IDs: "

  /** The checks a create or update request must pass before the
      repository is touched: the band, then the mode configuration, whose
      messages are joined by ", ". */
  function RequestError(c: Contact): (e: Option<ServiceError>)
    ensures e.None? <==> IsValidBand(Some(c.band)) && ModeConfigurationValid(c.mode, c.submode, c.customMode)
    ensures !IsValidBand(Some(c.band)) ==> e == Some(BadRequest(BandValidationError(Some(c.band))))
    ensures e.Some? ==> e.value.BadRequest?
    ensures IsValidBand(Some(c.band)) && e.Some? ==>
      e == Some(BadRequest(ModeValidationFailed + Join(", ", ModeViolations(c.mode, c.submode, c.customMode))))
  {
    ModeViolationsEmptyIffValid(c.mode, c.submode, c.customMode);
    if !IsValidBand(Some(c.band)) then Some(BadRequest(BandValidationError(Some(c.band))))
    else
      var violations := ModeViolations(c.mode, c.submode, c.customMode);
      if violations == [] then None else Some(BadRequest(ModeValidationFailed + Join(", ", violations)))
  }

  /** The row `Qso.create` builds. */
  function NewRecord(newId: Uuid, userId: Uuid, c: Contact, now: CreateClock): (r: QsoRecord)
    ensures IsNewRecord(r, newId, userId, c, now)
  {
    QsoRecord(newId, userId, c, Some(QslStatus.NONE), Some(LotwStatus.UNKNOWN), Some(EqslStatus.UNKNOWN), now.first, now.second)
  }

  /** The stored rows a new contact would duplicate. */
  function DuplicatesOf(rows: seq<QsoRecord>, userId: Uuid, c: Contact): seq<QsoRecord> {
    FindPotentialDuplicates(rows, userId, c.theirCallsign, c.qsoDate, c.band, c.mode.Name())
  }

  /** What `createQso` yields: an error, or the new row to save. */
  function CreateOutcome(rows: seq<QsoRecord>, userId: Uuid, c: Contact, confirmDuplicate: bool,
                         newId: Uuid, now: CreateClock): Result<QsoRecord, ServiceError>
  {
    match RequestError(c)
    case Some(e) => Err(e)
    case None =>
      var duplicates := DuplicatesOf(rows, userId, c);
      if !confirmDuplicate && duplicates != [] then
        Err(DuplicateQso(DuplicateMessage(IdsOf(duplicates)), IdsOf(duplicates)))
      else Ok(NewRecord(newId, userId, c, now))
  }

  /** Whether a stored row has the same owner, callsign, date, band and
      mode as a new contact. */
  predicate SameContact(x: QsoRecord, userId: Uuid, c: Contact) {
    && x.userId == userId && x.contact.theirCallsign == c.theirCallsign
    && x.contact.qsoDate == c.qsoDate && x.contact.band == c.band && x.contact.mode == c.mode
  }

  lemma DuplicatesOfMeansSameContact(rows: seq<QsoRecord>, userId: Uuid, c: Contact)
    ensures forall x | x in rows :: x in DuplicatesOf(rows, userId, c) <==> SameContact(x, userId, c)
  {
    forall x | x in rows ensures x in DuplicatesOf(rows, userId, c) <==> SameContact(x, userId, c) {
      DuplicateKey(rows, userId, c, x);
    }
  }

  /** A create succeeds exactly when band and mode are valid and either the
      caller confirmed or no stored row of the user has the same callsign,
      date, band and mode; the saved row is then a new record. */
  lemma CreateSucceedsIff(rows: seq<QsoRecord>, userId: Uuid, c: Contact, confirmDuplicate: bool,
                          newId: Uuid, now: CreateClock)
    ensures var out := CreateOutcome(rows, userId, c, confirmDuplicate, newId, now);
      && (out.Ok? <==>
            && IsValidBand(Some(c.band)) && ModeConfigurationValid(c.mode, c.submode, c.customMode)
            && (confirmDuplicate || forall x | x in rows :: !SameContact(x, userId, c)))
      && (out.Ok? ==> IsNewRecord(out.value, newId, userId, c, now))
  {
    DuplicatesOfMeansSameContact(rows, userId, c);
    var d := DuplicatesOf(rows, userId, c);
    if d != [] {
      assert d[0] in d;
    }
  }

  /** An invalid request fails with its validation error whatever is
      stored: the duplicate check is never reached. */
  lemma ValidationComesFirst(rows: seq<QsoRecord>, userId: Uuid, c: Contact, confirmDuplicate: bool,
                             newId: Uuid, now: CreateClock)
    requires RequestError(c).Some?
    ensures CreateOutcome(rows, userId, c, confirmDuplicate, newId, now) == Err(RequestError(c).value)
    ensures CreateOutcome(rows, userId, c, confirmDuplicate, newId, now).error.StatusCode() == 400
  {
  }

  /** A create fails with a duplicate error exactly when the request is
      valid, and with the request's validation error otherwise. */
  lemma CreateErrorKinds(rows: seq<QsoRecord>, userId: Uuid, c: Contact, confirmDuplicate: bool,
                         newId: Uuid, now: CreateClock)
    ensures var out := CreateOutcome(rows, userId, c, confirmDuplicate, newId, now);
      && (out.Err? && out.error.DuplicateQso? <==>
            RequestError(c).None? && !confirmDuplicate && DuplicatesOf(rows, userId, c) != [])
      && (out.Err? && !out.error.DuplicateQso? <==> RequestError(c).Some?)
      && (RequestError(c).Some? ==> out == Err(RequestError(c).value))
  {
  }

  /** The ids of some rows are exactly the ids those rows carry. */
  lemma IdsOfMembership(rows: seq<QsoRecord>)
    ensures forall id | id in IdsOf(rows) :: exists x | x in rows :: x.id == id
    ensures forall x | x in rows :: x.id in IdsOf(rows)
  {
    var ids := IdsOf(rows);
    forall id | id in ids ensures exists x | x in rows :: x.id == id {
      var k :| 0 <= k < |ids| && ids[k] == id;
      assert rows[k] in rows;
    }
    forall x | x in rows ensures x.id in ids {
      var k :| 0 <= k < |rows| && rows[k] == x;
      assert ids[k] == x.id;
    }
  }

  /** The ids a duplicate error reports are those of the user's stored
      rows with the same callsign, date, band and mode, and of no other. */
  lemma DuplicateIdsAreMatches(rows: seq<QsoRecord>, userId: Uuid, c: Contact)
    ensures var ids := IdsOf(DuplicatesOf(rows, userId, c));
      && (forall id | id in ids :: exists x | x in rows :: x.id == id && SameContact(x, userId, c))
      && (forall x | x in rows && SameContact(x, userId, c) :: x.id in ids)
  {
    DuplicatesOfMeansSameContact(rows, userId, c);
    var d := DuplicatesOf(rows, userId, c);
    IdsOfMembership(d);
    assert forall x | x in d :: x in rows;
  }

  /** An unconfirmed duplicate of a valid request fails with 409 and the
      ids of the matching rows, in query order; nothing else is checked
      after it. */
  lemma DuplicateReported(rows: seq<QsoRecord>, userId: Uuid, c: Contact, newId: Uuid, now: CreateClock)
    requires RequestError(c).None?
    requires exists x | x in rows :: SameContact(x, userId, c)
    ensures var ids := IdsOf(DuplicatesOf(rows, userId, c));
      && |ids| > 0
      && CreateOutcome(rows, userId, c, false, newId, now) == Err(DuplicateQso(DuplicateMessage(ids), ids))
  {
    DuplicatesOfMeansSameContact(rows, userId, c);
    var x :| x in rows && SameContact(x, userId, c);
    assert x in DuplicatesOf(rows, userId, c);
  }

  /** What `updateQso` yields: an error, or the stored row with the
      thirteen contact fields replaced and a new update time; owner, id,
      statuses and creation time are kept. */
  function UpdateOutcome(rows: seq<QsoRecord>, id: Uuid, userId: Uuid, c: Contact, now: Instant)
    : Result<QsoRecord, ServiceError>
  {
    match RequestError(c)
    case Some(e) => Err(e)
    case None =>
      match FindByIdAndUserId(rows, id, userId)
      case None => Err(NotFound(QsoNotFound))
      case Some(x) => Ok(x.(contact := c, updatedAt := now))
  }

  /** An invalid request is rejected with its validation error (status 400)
      before the row is looked up; a valid update of a row the user does not
      own, or that does not exist, is `NotFound`; a valid update of an owned
      row succeeds, and keeps everything but the contact fields and the
      update time. */
  lemma UpdateOutcomes(rows: seq<QsoRecord>, id: Uuid, userId: Uuid, c: Contact, now: Instant)
    ensures var out := UpdateOutcome(rows, id, userId, c, now);
      && (RequestError(c).Some? ==> out == Err(RequestError(c).value) && out.error.StatusCode() == 400)
      && ((RequestError(c).None? && forall x | x in rows :: !(x.id == id && x.userId == userId))
            ==> out == Err(NotFound(QsoNotFound)))
      && (out.Ok? <==> RequestError(c).None? && exists x | x in rows :: x.id == id && x.userId == userId)
      && (out.Ok? ==>
            && RequestError(c).None?
            && (exists x | x in rows ::
                  && x.id == id && x.userId == userId
                  && out.value == QsoRecord(x.id, x.userId, c, x.qslStatus, x.lotwStatus, x.eqslStatus,
                                            x.createdAt, now)))
  {
  }

  /** A row with each given confirmation status replaced; a missing one
      keeps its stored value. */
  function WithStatuses(x: QsoRecord, qsl: Option<QslStatus>, lotw: Option<LotwStatus>, eqsl: Option<EqslStatus>)
    : (r: QsoRecord)
    ensures r.id == x.id && r.userId == x.userId && r.contact == x.contact
    ensures r.createdAt == x.createdAt && r.updatedAt == x.updatedAt
    ensures r.qslStatus == (if qsl.Some? then qsl else x.qslStatus)
    ensures r.lotwStatus == (if lotw.Some? then lotw else x.lotwStatus)
    ensures r.eqslStatus == (if eqsl.Some? then eqsl else x.eqslStatus)
  {
    x.(qslStatus := if qsl.Some? then qsl else x.qslStatus,
       lotwStatus := if lotw.Some? then lotw else x.lotwStatus,
       eqslStatus := if eqsl.Some? then eqsl else x.eqslStatus)
  }

  /** Saving the confirmation statuses of a stored row: `NotFound` unless
      the user owns it. */
  function StatusUpdateOutcome(rows: seq<QsoRecord>, id: Uuid, userId: Uuid, qsl: Option<QslStatus>,
                               lotw: Option<LotwStatus>, eqsl: Option<EqslStatus>, now: Instant)
    : (r: Result<QsoRecord, ServiceError>)
    ensures r.Err? <==> forall x | x in rows :: !(x.id == id && x.userId == userId)
    ensures r.Err? ==> r.error == NotFound(QsoNotFound)
    ensures r.Ok? ==> exists x | x in rows && x.id == id && x.userId == userId ::
      && r.value.id == x.id && r.value.userId == x.userId && r.value.contact == x.contact
      && r.value.createdAt == x.createdAt && r.value.updatedAt == now
      && r.value.qslStatus == (if qsl.Some? then qsl else x.qslStatus)
      && r.value.lotwStatus == (if lotw.Some? then lotw else x.lotwStatus)
      && r.value.eqslStatus == (if eqsl.Some? then eqsl else x.eqslStatus)
  {
    match FindByIdAndUserId(rows, id, userId)
    case None => Err(NotFound(QsoNotFound))
    case Some(x) => Ok(WithStatuses(x, qsl, lotw, eqsl).(updatedAt := now))
  }

  /** What `deleteQso` yields: `NotFound` unless the user owns the row. */
  function DeleteOutcome(rows: seq<QsoRecord>, id: Uuid, userId: Uuid): (e: Option<ServiceError>)
    ensures e.None? <==> exists x | x in rows :: x.id == id && x.userId == userId
    ensures e.Some? ==> e == Some(NotFound(QsoNotFound))
  {
    if FindByIdAndUserId(rows, id, userId).None? then Some(NotFound(QsoNotFound)) else None
  }

  /** `findById`. */
  function FindByIdOutcome(rows: seq<QsoRecord>, id: Uuid, userId: Uuid): (r: Result<QsoRecord, ServiceError>)
    ensures r.Ok? ==> r.value in rows && r.value.id == id && r.value.userId == userId
    ensures r.Err? <==> forall x | x in rows :: !(x.id == id && x.userId == userId)
    ensures r.Err? ==> r.error == NotFound(QsoNotFound)
  {
    match FindByIdAndUserId(rows, id, userId)
    case None => Err(NotFound(QsoNotFound))
    case Some(x) => Ok(x)
  }

  /** Java `int`. */
  type Int32 = x: int | -0x8000_0000 <= x < 0x8000_0000

  /** The callsign pattern: `%filter%` for a present, non-blank filter. */
  function CallsignPattern(filter: Option<string>): (p: Option<LikePattern>)
    ensures p.Some? <==> Present(filter)
    ensures p.Some? ==> p.value.fragment == filter.value
  {
    if Present(filter) then Some(Containing(filter.value)) else None
  }

  /** `findAll`: limit `size`, offset `page * size` (computed in 64 bits,
      so it cannot overflow). `None` when the database rejects a negative
      limit or offset. */
  function FindAllOutcome(rows: seq<QsoRecord>, userId: Uuid, callsignFilter: Option<string>, band: Option<string>,
                          from: Option<LocalDate>, to: Option<LocalDate>, page: Int32, size: Int32)
    : (r: Option<seq<QsoRecord>>)
    ensures r.None? <==> size < 0 || page * size < 0
  {
    var offset := page * size;
    if size < 0 || offset < 0 then None
    else Some(FindByUserIdWithFilters(rows, userId, CallsignPattern(callsignFilter), band, from, to, size, offset))
  }

  /** Every listed row belongs to the user, passes the filters, and the
      page is newest first and at most `size` long. */
  lemma FindAllListsOwnRows(rows: seq<QsoRecord>, userId: Uuid, callsignFilter: Option<string>,
                            band: Option<string>, from: Option<LocalDate>, to: Option<LocalDate>,
                            page: Int32, size: Int32)
    requires size >= 0 && page * size >= 0
    ensures var listed := FindAllOutcome(rows, userId, callsignFilter, band, from, to, page, size).value;
      && |listed| <= size
      && SortedByKey(listed, NewestFirstKey)
      && forall i | 0 <= i < |listed| ::
           && listed[i] in rows && listed[i].userId == userId
           && MatchesPattern(listed[i].contact.theirCallsign, CallsignPattern(callsignFilter))
           && (band.Some? ==> listed[i].contact.band == band.value)
           && OnOrAfter(listed[i].contact.qsoDate, from) && OnOrBefore(listed[i].contact.qsoDate, to)
  {
    FilteredListing(rows, userId, CallsignPattern(callsignFilter), band, from, to, size, page * size);
  }

  /** Page `page` of size `size` is the slice of the whole listing that
      starts at `page * size`. */
  lemma FindAllIsPageOfListing(rows: seq<QsoRecord>, userId: Uuid, callsignFilter: Option<string>,
                               band: Option<string>, from: Option<LocalDate>, to: Option<LocalDate>,
                               page: Int32, size: Int32)
    requires size >= 0 && page * size >= 0
    ensures var whole := SortByKey(Where(rows, Filtered(userId, CallsignPattern(callsignFilter), band, from, to)),
                                   NewestFirstKey);
      var listed := FindAllOutcome(rows, userId, callsignFilter, band, from, to, page, size).value;
      forall i | 0 <= i < |listed| :: page * size + i < |whole| && listed[i] == whole[page * size + i]
  {
  }

  /** The band check, then the mode check through the validator, as both
      `createQso` and `updateQso` run them. */
  method CheckRequest(c: Contact) returns (e: Option<ServiceError>)
    ensures e == RequestError(c)
  {
    if !IsValidBand(Some(c.band)) {
      return Some(BadRequest(BandValidationError(Some(c.band))));
    }
    var errors := ValidateModeConfiguration(c.mode, c.submode, c.customMode);
    if errors != [] {
      return Some(BadRequest(ModeValidationFailed + Join(", ", errors)));
    }
    e := None;
  }

  /** The service over a repository. */
  class QsoService {
    const store: Store

    constructor (store: Store)
      ensures this.store == store
    {
      this.store := store;
    }

    predicate Valid()
      reads this, store
    {
      store.Valid()
    }

    /** `saveQso`: build the entity with `Qso.create` and save it. */
    method SaveQso(userId: Uuid, c: Contact, newId: Uuid, now: CreateClock) returns (saved: QsoRecord)
      requires Valid()
      modifies store
      ensures saved == NewRecord(newId, userId, c, now)
      ensures store.rows == Upsert(old(store.rows), saved) && Valid()
    {
      var q := new Qso.Create(userId, c.theirCallsign, c.qsoDate, c.timeOn, c.band, c.frequencyKhz, c.mode,
        c.submode, c.customMode, c.rstSent, c.rstRecv, c.qth, c.gridSquare, c.notes, newId, now);
      assert c == Contact(c.theirCallsign, c.qsoDate, c.timeOn, c.band, c.frequencyKhz, c.mode,
        c.submode, c.customMode, c.rstSent, c.rstRecv, c.qth, c.gridSquare, c.notes);
      saved := q.Snapshot();
      store.Save(saved);
    }

    /** `createQso`. */
    method CreateQso(userId: Uuid, c: Contact, confirmDuplicate: bool, newId: Uuid, now: CreateClock)
      returns (r: Result<QsoRecord, ServiceError>)
      requires Valid()
      modifies store
      ensures r == CreateOutcome(old(store.rows), userId, c, confirmDuplicate, newId, now)
      ensures store.rows == (if r.Ok? then Upsert(old(store.rows), r.value) else old(store.rows))
      ensures Valid()
    {
      ghost var outcome := CreateOutcome(store.rows, userId, c, confirmDuplicate, newId, now);
      var invalid := CheckRequest(c);
      if invalid.Some? {
        return Err(invalid.value);
      }
      if !confirmDuplicate {
        var duplicates := FindPotentialDuplicates(store.rows, userId, c.theirCallsign, c.qsoDate, c.band, c.mode.Name());
        assert duplicates == DuplicatesOf(store.rows, userId, c);
        if duplicates != [] {
          var existingIds := IdsOf(duplicates);
          return Err(DuplicateQso(DuplicateMessage(existingIds), existingIds));
        }
      }
      assert outcome == Ok(NewRecord(newId, userId, c, now));
      var saved := SaveQso(userId, c, newId, now);
      r := Ok(saved);
    }

    /** `findById`. */
    function FindById(id: Uuid, userId: Uuid): (r: Result<QsoRecord, ServiceError>)
      reads this, store
      ensures r.Ok? ==> r.value in store.rows && r.value.id == id && r.value.userId == userId
      ensures r.Err? <==> forall x | x in store.rows :: !(x.id == id && x.userId == userId)
    {
      FindByIdOutcome(store.rows, id, userId)
    }

    /** `findAll`. */
    function FindAll(userId: Uuid, callsignFilter: Option<string>, band: Option<string>,
                     from: Option<LocalDate>, to: Option<LocalDate>, page: Int32, size: Int32)
      : (r: Option<seq<QsoRecord>>)
      reads this, store
      ensures r.None? <==> size < 0 || page * size < 0
      ensures r.Some? ==> forall x | x in r.value :: x in store.rows && x.userId == userId
    {
      var r := FindAllOutcome(store.rows, userId, callsignFilter, band, from, to, page, size);
      if r.None? then r
      else
        FindAllListsOwnRows(store.rows, userId, callsignFilter, band, from, to, page, size);
        r
    }

    /** `updateQso`: load the stored entity, apply the thirteen setters and
        the update time, save it. */
    method UpdateQso(id: Uuid, userId: Uuid, c: Contact, now: Instant) returns (r: Result<QsoRecord, ServiceError>)
      requires Valid()
      modifies store
      ensures r == UpdateOutcome(old(store.rows), id, userId, c, now)
      ensures store.rows == (if r.Ok? then Upsert(old(store.rows), r.value) else old(store.rows))
      ensures Valid()
    {
      var invalid := CheckRequest(c);
      if invalid.Some? {
        return Err(invalid.value);
      }
      var found := FindByIdAndUserId(store.rows, id, userId);
      if found.None? {
        return Err(NotFound(QsoNotFound));
      }
      var updated := ApplyUpdate(found.value, c, now);
      store.Save(updated);
      r := Ok(updated);
    }

    /** Save the given confirmation statuses of a stored row. */
    method UpdateStatuses(id: Uuid, userId: Uuid, qsl: Option<QslStatus>, lotw: Option<LotwStatus>,
                          eqsl: Option<EqslStatus>, now: Instant) returns (r: Result<QsoRecord, ServiceError>)
      requires Valid()
      modifies store
      ensures r == StatusUpdateOutcome(old(store.rows), id, userId, qsl, lotw, eqsl, now)
      ensures store.rows == (if r.Ok? then Upsert(old(store.rows), r.value) else old(store.rows))
      ensures Valid()
    {
      var found := FindByIdAndUserId(store.rows, id, userId);
      if found.None? {
        return Err(NotFound(QsoNotFound));
      }
      var q := Load(found.value);
      SetGivenStatuses(q, qsl, lotw, eqsl);
      q.SetUpdatedAt(now);
      var updated := q.Snapshot();
      store.Save(updated);
      r := Ok(updated);
    }

    /** `deleteQso`. */
    method DeleteQso(id: Uuid, userId: Uuid) returns (e: Option<ServiceError>)
      requires Valid()
      modifies store
      ensures e == DeleteOutcome(old(store.rows), id, userId)
      ensures store.rows == (if e.None? then Deleted(old(store.rows), id, userId) else old(store.rows))
      ensures Valid()
    {
      var found := FindByIdAndUserId(store.rows, id, userId);
      if found.None? {
        return Some(NotFound(QsoNotFound));
      }
      store.DeleteByIdAndUserId(id, userId);
      e := None;
    }

    /** `countByUserId`. */
    function CountByUserId(userId: Uuid): (n: nat)
      reads this, store
      ensures n <= |store.rows|
      ensures n == Grouping.CountWhere(store.rows, (x: QsoRecord) => x.userId == userId)
    {
      Repository.CountByUserId(store.rows, userId)
    }
  }

  /** Set each given confirmation status on an entity, leaving the others. */
  method SetGivenStatuses(q: Qso, qsl: Option<QslStatus>, lotw: Option<LotwStatus>, eqsl: Option<EqslStatus>)
    modifies q
    ensures q.Snapshot() == WithStatuses(old(q.Snapshot()), qsl, lotw, eqsl)
  {
    if qsl.Some? {
      q.SetQslStatus(qsl);
    }
    if lotw.Some? {
      q.SetLotwStatus(lotw);
    }
    if eqsl.Some? {
      q.SetEqslStatus(eqsl);
    }
  }

  /** The setter sequence of `updateQso` on a freshly loaded entity. */
  method ApplyUpdate(stored: QsoRecord, c: Contact, now: Instant) returns (updated: QsoRecord)
    ensures updated == stored.(contact := c, updatedAt := now)
  {
    var q := Load(stored);
    q.SetTheirCallsign(c.theirCallsign);
    q.SetQsoDate(c.qsoDate);
    q.SetTimeOn(c.timeOn);
    q.SetBand(c.band);
    q.SetFrequencyKhz(c.frequencyKhz);
    q.SetMode(c.mode);
    q.SetSubmode(c.submode);
    q.SetCustomMode(c.customMode);
    q.SetRstSent(c.rstSent);
    q.SetRstRecv(c.rstRecv);
    q.SetQth(c.qth);
    q.SetGridSquare(c.gridSquare);
    q.SetNotes(c.notes);
    q.SetUpdatedAt(now);
    updated := q.Snapshot();
  }

  /** A successful write leaves ids unique and the written row findable by
      its id and owner; a delete leaves it unfindable. */
  lemma WritesKeepRowsFindable(rows: seq<QsoRecord>, userId: Uuid, c: Contact, confirmDuplicate: bool,
                               newId: Uuid, now: CreateClock)
    requires UniqueIds(rows)
    ensures var out := CreateOutcome(rows, userId, c, confirmDuplicate, newId, now);
      out.Ok? ==> UniqueIds(Upsert(rows, out.value))
                  && FindByIdAndUserId(Upsert(rows, out.value), newId, userId) == Some(out.value)
  {
    var out := CreateOutcome(rows, userId, c, confirmDuplicate, newId, now);
    if out.Ok? {
      UpsertKeepsIdsUnique(rows, out.value);
    }
  }
}
