/** The QSO (one radio contact) entity: the thirteen contact fields a
    caller supplies, the owner and id, the three confirmation statuses and
    the two timestamps. `QsoRecord` is the value a row holds; `Qso` is the
    mutable entity object the services work on. */
module QsoEntity {
  import opened Common
  import opened Enums
  import opened Temporal
  import opened Decimal
  import opened Ids

  /** The fields a create or update request supplies. Callsign, date,
      time, band and mode are required by the request validation; every
      other field may be null. */
  datatype Contact = Contact(
    theirCallsign: string,
    qsoDate: LocalDate,
    timeOn: LocalTime,
    band: string,
    frequencyKhz: Option<BigDecimal>,
    mode: AdifMode,
    submode: Option<AdifSubmode>,
    customMode: Option<string>,
    rstSent: Option<string>,
    rstRecv: Option<string>,
    qth: Option<string>,
    gridSquare: Option<string>,
    notes: Option<string>)

  /** One stored QSO. */
  datatype QsoRecord = QsoRecord(
    id: Uuid,
    userId: Uuid,
    contact: Contact,
    qslStatus: Option<QslStatus>,
    lotwStatus: Option<LotwStatus>,
    eqslStatus: Option<EqslStatus>,
    createdAt: Instant,
    updatedAt: Instant)

  /** The two clock readings `create` takes, one for each timestamp. */
  datatype CreateClock = CreateClock(first: Instant, second: Instant)

  /** A freshly created QSO: the given contact fields, status defaults
      NONE / UNKNOWN / UNKNOWN, `createdAt` from the first clock reading and
      `updatedAt` from the second. */
  predicate IsNewRecord(r: QsoRecord, id: Uuid, userId: Uuid, c: Contact, now: CreateClock) {
    && r.id == id && r.userId == userId && r.contact == c
    && r.qslStatus == Some(QslStatus.NONE)
    && r.lotwStatus == Some(LotwStatus.UNKNOWN)
    && r.eqslStatus == Some(EqslStatus.UNKNOWN)
    && r.createdAt == now.first && r.updatedAt == now.second
  }

  /** The `Qso` entity object, field for field. */
  class Qso {
    var id: Uuid
    var userId: Uuid
    var theirCallsign: string
    var qsoDate: LocalDate
    var timeOn: LocalTime
    var band: string
    var frequencyKhz: Option<BigDecimal>
    var mode: AdifMode
    var submode: Option<AdifSubmode>
    var customMode: Option<string>
    var rstSent: Option<string>
    var rstRecv: Option<string>
    var qth: Option<string>
    var gridSquare: Option<string>
    var notes: Option<string>
    var qslStatus: Option<QslStatus>
    var lotwStatus: Option<LotwStatus>
    var eqslStatus: Option<EqslStatus>
    var createdAt: Instant
    var updatedAt: Instant

    /** The thirteen contact fields, as the getters return them. */
    function ContactFields(): Contact
      reads this
    {
      Contact(theirCallsign, qsoDate, timeOn, band, frequencyKhz, mode, submode,
        customMode, rstSent, rstRecv, qth, gridSquare, notes)
    }

    /** The object's whole state as a row value. */
    function Snapshot(): QsoRecord
      reads this
    {
      QsoRecord(id, userId, ContactFields(), qslStatus, lotwStatus, eqslStatus, createdAt, updatedAt)
    }

    /** The all-arguments constructor: each argument lands in its field. */
    constructor (id: Uuid, userId: Uuid, theirCallsign: string, qsoDate: LocalDate, timeOn: LocalTime,
                 band: string, frequencyKhz: Option<BigDecimal>, mode: AdifMode, submode: Option<AdifSubmode>,
                 customMode: Option<string>, rstSent: Option<string>, rstRecv: Option<string>,
                 qth: Option<string>, gridSquare: Option<string>, notes: Option<string>,
                 qslStatus: Option<QslStatus>, lotwStatus: Option<LotwStatus>, eqslStatus: Option<EqslStatus>,
                 createdAt: Instant, updatedAt: Instant)
      ensures Snapshot() == QsoRecord(id, userId,
        Contact(theirCallsign, qsoDate, timeOn, band, frequencyKhz, mode, submode,
          customMode, rstSent, rstRecv, qth, gridSquare, notes),
        qslStatus, lotwStatus, eqslStatus, createdAt, updatedAt)
    {
      this.id := id;
      this.userId := userId;
      this.theirCallsign := theirCallsign;
      this.qsoDate := qsoDate;
      this.timeOn := timeOn;
      this.band := band;
      this.frequencyKhz := frequencyKhz;
      this.mode := mode;
      this.submode := submode;
      this.customMode := customMode;
      this.rstSent := rstSent;
      this.rstRecv := rstRecv;
      this.qth := qth;
      this.gridSquare := gridSquare;
      this.notes := notes;
      this.qslStatus := qslStatus;
      this.lotwStatus := lotwStatus;
      this.eqslStatus := eqslStatus;
      this.createdAt := createdAt;
      this.updatedAt := updatedAt;
    }

    /** The `create` factory. The random id and the two clock readings are
        parameters. */
    constructor Create(userId: Uuid, theirCallsign: string, qsoDate: LocalDate, timeOn: LocalTime,
                       band: string, frequencyKhz: Option<BigDecimal>, mode: AdifMode,
                       submode: Option<AdifSubmode>, customMode: Option<string>, rstSent: Option<string>,
                       rstRecv: Option<string>, qth: Option<string>, gridSquare: Option<string>,
                       notes: Option<string>, newId: Uuid, now: CreateClock)
      ensures IsNewRecord(Snapshot(), newId, userId,
        Contact(theirCallsign, qsoDate, timeOn, band, frequencyKhz, mode, submode,
          customMode, rstSent, rstRecv, qth, gridSquare, notes), now)
    {
      id := newId;
      this.userId := userId;
      this.theirCallsign := theirCallsign;
      this.qsoDate := qsoDate;
      this.timeOn := timeOn;
      this.band := band;
      this.frequencyKhz := frequencyKhz;
      this.mode := mode;
      this.submode := submode;
      this.customMode := customMode;
      this.rstSent := rstSent;
      this.rstRecv := rstRecv;
      this.qth := qth;
      this.gridSquare := gridSquare;
      this.notes := notes;
      qslStatus := Some(QslStatus.NONE);
      lotwStatus := Some(LotwStatus.UNKNOWN);
      eqslStatus := Some(EqslStatus.UNKNOWN);
      createdAt := now.first;
      updatedAt := now.second;
    }

    // The setters: each replaces its own field and nothing else.

    method SetId(v: Uuid)
      modifies this
      ensures Snapshot() == old(Snapshot()).(id := v)
    {
      id := v;
    }

    method SetUserId(v: Uuid)
      modifies this
      ensures Snapshot() == old(Snapshot()).(userId := v)
    {
      userId := v;
    }

    method SetTheirCallsign(v: string)
      modifies this
      ensures Snapshot() == old(Snapshot()).(contact := old(Snapshot()).contact.(theirCallsign := v))
    {
      theirCallsign := v;
    }

    method SetQsoDate(v: LocalDate)
      modifies this
      ensures Snapshot() == old(Snapshot()).(contact := old(Snapshot()).contact.(qsoDate := v))
    {
      qsoDate := v;
    }

    method SetTimeOn(v: LocalTime)
      modifies this
      ensures Snapshot() == old(Snapshot()).(contact := old(Snapshot()).contact.(timeOn := v))
    {
      timeOn := v;
    }

    method SetBand(v: string)
      modifies this
      ensures Snapshot() == old(Snapshot()).(contact := old(Snapshot()).contact.(band := v))
    {
      band := v;
    }

    method SetFrequencyKhz(v: Option<BigDecimal>)
      modifies this
      ensures Snapshot() == old(Snapshot()).(contact := old(Snapshot()).contact.(frequencyKhz := v))
    {
      frequencyKhz := v;
    }

    method SetMode(v: AdifMode)
      modifies this
      ensures Snapshot() == old(Snapshot()).(contact := old(Snapshot()).contact.(mode := v))
    {
      mode := v;
    }

    method SetSubmode(v: Option<AdifSubmode>)
      modifies this
      ensures Snapshot() == old(Snapshot()).(contact := old(Snapshot()).contact.(submode := v))
    {
      submode := v;
    }

    method SetCustomMode(v: Option<string>)
      modifies this
      ensures Snapshot() == old(Snapshot()).(contact := old(Snapshot()).contact.(customMode := v))
    {
      customMode := v;
    }

    method SetRstSent(v: Option<string>)
      modifies this
      ensures Snapshot() == old(Snapshot()).(contact := old(Snapshot()).contact.(rstSent := v))
    {
      rstSent := v;
    }

    method SetRstRecv(v: Option<string>)
      modifies this
      ensures Snapshot() == old(Snapshot()).(contact := old(Snapshot()).contact.(rstRecv := v))
    {
      rstRecv := v;
    }

    method SetQth(v: Option<string>)
      modifies this
      ensures Snapshot() == old(Snapshot()).(contact := old(Snapshot()).contact.(qth := v))
    {
      qth := v;
    }

    method SetGridSquare(v: Option<string>)
      modifies this
      ensures Snapshot() == old(Snapshot()).(contact := old(Snapshot()).contact.(gridSquare := v))
    {
      gridSquare := v;
    }

    method SetNotes(v: Option<string>)
      modifies this
      ensures Snapshot() == old(Snapshot()).(contact := old(Snapshot()).contact.(notes := v))
    {
      notes := v;
    }

    method SetQslStatus(v: Option<QslStatus>)
      modifies this
      ensures Snapshot() == old(Snapshot()).(qslStatus := v)
    {
      qslStatus := v;
    }

    method SetLotwStatus(v: Option<LotwStatus>)
      modifies this
      ensures Snapshot() == old(Snapshot()).(lotwStatus := v)
    {
      lotwStatus := v;
    }

    method SetEqslStatus(v: Option<EqslStatus>)
      modifies this
      ensures Snapshot() == old(Snapshot()).(eqslStatus := v)
    {
      eqslStatus := v;
    }

    method SetCreatedAt(v: Instant)
      modifies this
      ensures Snapshot() == old(Snapshot()).(createdAt := v)
    {
      createdAt := v;
    }

    method SetUpdatedAt(v: Instant)
      modifies this
      ensures Snapshot() == old(Snapshot()).(updatedAt := v)
    {
      updatedAt := v;
    }
  }

  /** Reading a stored row back into an entity object (what the row mapper
      does through the all-arguments constructor). */
  method Load(r: QsoRecord) returns (q: Qso)
    ensures fresh(q) && q.Snapshot() == r
  {
    var c := r.contact;
    q := new Qso(r.id, r.userId, c.theirCallsign, c.qsoDate, c.timeOn, c.band, c.frequencyKhz,
      c.mode, c.submode, c.customMode, c.rstSent, c.rstRecv, c.qth, c.gridSquare, c.notes,
      r.qslStatus, r.lotwStatus, r.eqslStatus, r.createdAt, r.updatedAt);
  }
}
