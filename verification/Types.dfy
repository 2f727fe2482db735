/** Values shared by every module: the typed contents of the files the program keeps. */
module Types {

  datatype Option<+T> = None | Some(value: T)

  /** How a command ends. */
  datatype Exit = ExitOk | ExitError | Killed

  /** A crash may fall here, unless the command is known to run undisturbed. */
  method MayDie(steady: bool) returns (alive: bool)
    ensures steady ==> alive
  {
    alive := true;
    if !steady {
      alive := *;
    }
  }

  const UINT32_LIMIT: int := 0x1_0000_0000

  type uint32 = x: int | 0 <= x < UINT32_LIMIT

  /** UIDVALIDITY as a server issues it: nz-number in section 9 of RFC 3501. */
  type ServerUidValidity = x: int | 0 < x < UINT32_LIMIT witness 1

  /** An instant in UTC. `rest` counts from the start of the month, so that the
      YYYYMM directory of an email is a projection and not calendar arithmetic. */
  datatype Time = Time(year: Year, month: Month, rest: nat) {

    /** Go's zero time: the first instant of January of year 1. */
    predicate IsZero() {
      this == Time(1, 1, 0)
    }

    predicate Before(other: Time) {
      year < other.year
      || (year == other.year && (month < other.month || (month == other.month && rest < other.rest)))
    }
  }

  /** Before is the order of time: years count first, then months, then the rest of the month. */
  lemma Chronological(a: Time, b: Time)
    ensures a.year < b.year ==> a.Before(b) && !b.Before(a)
    ensures a.year == b.year && a.month < b.month ==> a.Before(b) && !b.Before(a)
    ensures a.year == b.year && a.month == b.month && a.rest < b.rest ==> a.Before(b) && !b.Before(a)
    ensures !a.Before(a)
    ensures a.IsZero() <==> a.year == 1 && a.month == 1 && a.rest == 0
  {
  }

  type Year = y: int | 0 <= y <= 9999
  type Month = m: int | 1 <= m <= 12 witness 1

  datatype Policy = Policy(policyType: string, failures: int)

  datatype Report = Report(id: string, end: Time, policies: seq<Policy>) {

    predicate HasFailure() {
      exists p :: p in policies && p.failures > 0
    }
  }

  /** What the report decoder makes of one attachment. */
  datatype Attachment = NotTlsrpt | Malformed | Tlsrpt(report: Report)

  /** A stored message: not an RFC 5322 message at all, one whose MIME structure cannot be walked, or
      one whose attachments can be listed. */
  datatype Mail = NotAMessage | BadMime | Readable(attachments: seq<Attachment>)

  datatype IndexEntry = IndexEntry(uid: uint32, uidValidity: uint32, date: Time)

  datatype EmailKey = EmailKey(uid: uint32, uidValidity: uint32)

  /** {uidvalidity}/{YYYYMM}/{uid}.eml below emails/. */
  datatype EmailPath = EmailPath(uidValidity: uint32, year: Year, month: Month, uid: uint32)

  function KeyOf(e: IndexEntry): EmailKey {
    EmailKey(e.uid, e.uidValidity)
  }

  function PathOf(e: IndexEntry): EmailPath {
    EmailPath(e.uidValidity, e.date.year, e.date.month, e.uid)
  }

  type EmailDir = map<EmailPath, Mail>

  /** The content of tlsrpt.json. */
  datatype DataFile = DataFile(reports: seq<Report>, index: seq<IndexEntry>)

  const EmptyData := DataFile([], [])
}
