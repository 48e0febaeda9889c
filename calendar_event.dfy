/** The CalendarEvent record: the ten VEVENT properties of section 3.8 of
    RFC 5545 that the application tracks, each held as a raw string. */
module CalendarEvents {
  import opened Wrappers

  /** A field that holds a Java String, which may be null (`None`). */
  type Text = Option<string>

  /** Names of the ten fields, in the order of the ten-argument constructor. */
  datatype Field =
    | StampDate | StartDate | EndDate | Summary | Location
    | Description | Uid | CreatedAt | LastModified | Sequence

  /** The state of a CalendarEvent object, as a value. */
  datatype EventFields = EventFields(
    stampDate: Text,     // DTSTAMP
    startDate: Text,     // DTSTART
    endDate: Text,       // DTEND
    summary: Text,       // SUMMARY
    location: Text,      // LOCATION
    description: Text,   // DESCRIPTION
    uid: Text,           // UID
    createdAt: Text,     // CREATED
    lastModified: Text,  // LAST-MODIFIED
    sequence: Text       // SEQUENCE
  )

  /** The state of an object built with the no-argument constructor: every field null. */
  const Unset := EventFields(None, None, None, None, None, None, None, None, None, None)

  /** The value a getter reads. */
  function Get(f: EventFields, k: Field): Text
  {
    match k
    case StampDate => f.stampDate
    case StartDate => f.startDate
    case EndDate => f.endDate
    case Summary => f.summary
    case Location => f.location
    case Description => f.description
    case Uid => f.uid
    case CreatedAt => f.createdAt
    case LastModified => f.lastModified
    case Sequence => f.sequence
  }

  /** The state after a setter stores `v` in field `k`. */
  function Set(f: EventFields, k: Field, v: Text): EventFields
  {
    match k
    case StampDate => f.(stampDate := v)
    case StartDate => f.(startDate := v)
    case EndDate => f.(endDate := v)
    case Summary => f.(summary := v)
    case Location => f.(location := v)
    case Description => f.(description := v)
    case Uid => f.(uid := v)
    case CreatedAt => f.(createdAt := v)
    case LastModified => f.(lastModified := v)
    case Sequence => f.(sequence := v)
  }

  /** Two states are equal when every getter agrees on them. */
  lemma Extensionality(f: EventFields, g: EventFields)
    requires forall k: Field :: Get(f, k) == Get(g, k)
    ensures f == g
  {
    assert Get(f, StampDate) == Get(g, StampDate);
    assert Get(f, StartDate) == Get(g, StartDate);
    assert Get(f, EndDate) == Get(g, EndDate);
    assert Get(f, Summary) == Get(g, Summary);
    assert Get(f, Location) == Get(g, Location);
    assert Get(f, Description) == Get(g, Description);
    assert Get(f, Uid) == Get(g, Uid);
    assert Get(f, CreatedAt) == Get(g, CreatedAt);
    assert Get(f, LastModified) == Get(g, LastModified);
    assert Get(f, Sequence) == Get(g, Sequence);
  }

  /** After `setX(v)`, `getX()` returns `v`; every other getter returns what it did before. */
  lemma GetAfterSet(f: EventFields, k: Field, v: Text, j: Field)
    ensures Get(Set(f, k, v), j) == if j == k then v else Get(f, j)
  {
  }

  /** Storing the same value twice leaves the object as storing it once. */
  lemma SetIdempotent(f: EventFields, k: Field, v: Text)
    ensures Set(Set(f, k, v), k, v) == Set(f, k, v)
  {
  }

  /** Setters of two different fields commute. */
  lemma SetCommutes(f: EventFields, k: Field, v: Text, j: Field, w: Text)
    requires k != j
    ensures Set(Set(f, k, v), j, w) == Set(Set(f, j, w), k, v)
  {
    forall i: Field ensures Get(Set(Set(f, k, v), j, w), i) == Get(Set(Set(f, j, w), k, v), i) {
      GetAfterSet(Set(f, k, v), j, w, i);
      GetAfterSet(f, k, v, i);
      GetAfterSet(Set(f, j, w), k, v, i);
      GetAfterSet(f, j, w, i);
    }
    Extensionality(Set(Set(f, k, v), j, w), Set(Set(f, j, w), k, v));
  }

  /** A mutable event record with ten nullable string fields. */
  class CalendarEvent {
    var stampDate: Text
    var startDate: Text
    var endDate: Text
    var summary: Text
    var location: Text
    var description: Text
    var uid: Text
    var createdAt: Text
    var lastModified: Text
    var sequence: Text

    /** The object's state as a value. */
    ghost function Fields(): EventFields
      reads this
    {
      EventFields(stampDate, startDate, endDate, summary, location,
                  description, uid, createdAt, lastModified, sequence)
    }

    /** The no-argument constructor: every field stays null. */
    constructor Empty()
      ensures Fields() == Unset
      ensures forall k: Field :: Get(Fields(), k) == None
    {
      stampDate, startDate, endDate, summary, location := None, None, None, None, None;
      description, uid, createdAt, lastModified, sequence := None, None, None, None, None;
    }

    /** The ten-argument constructor: each argument is stored in the field of the same name. */
    constructor (stampDate: Text, startDate: Text, endDate: Text, summary: Text, location: Text,
                 description: Text, uid: Text, createdAt: Text, lastModified: Text, sequence: Text)
      ensures Fields() == EventFields(stampDate, startDate, endDate, summary, location,
                                      description, uid, createdAt, lastModified, sequence)
    {
      this.stampDate := stampDate;
      this.startDate := startDate;
      this.endDate := endDate;
      this.summary := summary;
      this.location := location;
      this.description := description;
      this.uid := uid;
      this.createdAt := createdAt;
      this.lastModified := lastModified;
      this.sequence := sequence;
    }

    method GetStampDate() returns (r: Text)
      ensures r == Get(Fields(), StampDate)
    {
      return stampDate;
    }

    method SetStampDate(v: Text)
      modifies this
      ensures Fields() == Set(old(Fields()), StampDate, v)
    {
      stampDate := v;
    }

    method GetStartDate() returns (r: Text)
      ensures r == Get(Fields(), StartDate)
    {
      return startDate;
    }

    method SetStartDate(v: Text)
      modifies this
      ensures Fields() == Set(old(Fields()), StartDate, v)
    {
      startDate := v;
    }

    method GetEndDate() returns (r: Text)
      ensures r == Get(Fields(), EndDate)
    {
      return endDate;
    }

    method SetEndDate(v: Text)
      modifies this
      ensures Fields() == Set(old(Fields()), EndDate, v)
    {
      endDate := v;
    }

    method GetSummary() returns (r: Text)
      ensures r == Get(Fields(), Summary)
    {
      return summary;
    }

    method SetSummary(v: Text)
      modifies this
      ensures Fields() == Set(old(Fields()), Summary, v)
    {
      summary := v;
    }

    method GetLocation() returns (r: Text)
      ensures r == Get(Fields(), Location)
    {
      return location;
    }

    method SetLocation(v: Text)
      modifies this
      ensures Fields() == Set(old(Fields()), Location, v)
    {
      location := v;
    }

    method GetDescription() returns (r: Text)
      ensures r == Get(Fields(), Description)
    {
      return description;
    }

    method SetDescription(v: Text)
      modifies this
      ensures Fields() == Set(old(Fields()), Description, v)
    {
      description := v;
    }

    method GetUid() returns (r: Text)
      ensures r == Get(Fields(), Uid)
    {
      return uid;
    }

    method SetUid(v: Text)
      modifies this
      ensures Fields() == Set(old(Fields()), Uid, v)
    {
      uid := v;
    }

    method GetCreatedAt() returns (r: Text)
      ensures r == Get(Fields(), CreatedAt)
    {
      return createdAt;
    }

    method SetCreatedAt(v: Text)
      modifies this
      ensures Fields() == Set(old(Fields()), CreatedAt, v)
    {
      createdAt := v;
    }

    method GetLastModified() returns (r: Text)
      ensures r == Get(Fields(), LastModified)
    {
      return lastModified;
    }

    method SetLastModified(v: Text)
      modifies this
      ensures Fields() == Set(old(Fields()), LastModified, v)
    {
      lastModified := v;
    }

    method GetSequence() returns (r: Text)
      ensures r == Get(Fields(), Sequence)
    {
      return sequence;
    }

    method SetSequence(v: Text)
      modifies this
      ensures Fields() == Set(old(Fields()), Sequence, v)
    {
      sequence := v;
    }
  }

  /** A caller's view of one object: after `setLocation(v)` and `setSummary(w)`,
      `getLocation()` returns `v`, and the object is as if the two setters had
      run in the other order. */
  method SetLocationAndSummary(e: CalendarEvent, v: Text, w: Text) returns (r: Text)
    modifies e
    ensures r == v
    ensures e.Fields() == Set(Set(old(e.Fields()), Summary, w), Location, v)
  {
    e.SetLocation(v);
    e.SetSummary(w);
    r := e.GetLocation();
    SetCommutes(old(e.Fields()), Location, v, Summary, w);
  }
}
