/**
 * The value side of the Google Calendar integration: the event object built
 * for an appointment, and the normalisation of the service-account private
 * key read from the environment. The calls to the calendar API are not part
 * of this model.
 */
module Calendar {
  import opened Common

  /**
   * The appointment fields the event is built from. Text columns the
   * database may leave empty are `None` (null).
   */
  datatype Appointment = Appointment(
    isExam: bool, startTime: nat, endTime: nat, location: Option<string>,
    customPickupStreet: Option<string>, customPickupHouseNumber: Option<string>,
    customPickupPostalCode: Option<string>, customPickupCity: Option<string>)

  datatype Person = Person(firstName: string, lastName: string)

  datatype EventTime = EventTime(dateTime: nat, timeZone: string)

  datatype CalendarEvent = CalendarEvent(summary: string, start: EventTime, end: EventTime, location: string)

  const TimeZone: string := "Europe/Amsterdam"
  const DefaultLocation: string := "Baeyens Rijopleiding"
  const ExamLabel: string := "Examen"
  const LessonLabel: string := "Rijles"

  /** JavaScript truthiness of a nullable text column. */
  predicate Present(o: Option<string>)
  {
    o.Some? && o.value != ""
  }

  /** How a template literal renders a nullable text column: null becomes "null". */
  function Interpolated(o: Option<string>): string
  {
    match o
    case None => "null"
    case Some(s) => s
  }

  /** "street houseNumber, postalCode city". */
  function PickupAddress(a: Appointment): (r: string)
    ensures |r| > |Interpolated(a.customPickupStreet)|
    ensures r[..|Interpolated(a.customPickupStreet)|] == Interpolated(a.customPickupStreet)
  {
    Interpolated(a.customPickupStreet) + " " + Interpolated(a.customPickupHouseNumber) + ", "
      + Interpolated(a.customPickupPostalCode) + " " + Interpolated(a.customPickupCity)
  }

  /** The event location: the appointment's own, else the pickup address, else the school. */
  function EventLocation(a: Appointment): (r: string)
    ensures r != ""
    ensures Present(a.location) ==> r == a.location.value
    ensures !Present(a.location) && Present(a.customPickupStreet) ==> r == PickupAddress(a)
    ensures !Present(a.location) && !Present(a.customPickupStreet) ==> r == DefaultLocation
  {
    if Present(a.location) then a.location.value
    else if Present(a.customPickupStreet) then PickupAddress(a)
    else DefaultLocation
  }

  /** "Examen - first last" for an exam, "Rijles - first last" for a lesson. */
  function Summary(isExam: bool, user: Person): (r: string)
    ensures |r| >= 9
    ensures r[..9] == (if isExam then ExamLabel else LessonLabel) + " - "
    ensures r[9..] == user.firstName + " " + user.lastName
  {
    (if isExam then ExamLabel else LessonLabel) + " - " + user.firstName + " " + user.lastName
  }

  /** The summary alone tells an exam from a lesson. */
  lemma SummaryTellsKind(e1: bool, u1: Person, e2: bool, u2: Person)
    requires Summary(e1, u1) == Summary(e2, u2)
    ensures e1 == e2
  {
    assert Summary(e1, u1)[0] == Summary(e2, u2)[0];
  }

  /** The event inserted for `appointment` of `user`. */
  function BuildEvent(appointment: Appointment, user: Person): (e: CalendarEvent)
    ensures e.start == EventTime(appointment.startTime, TimeZone)
    ensures e.end == EventTime(appointment.endTime, TimeZone)
    ensures e.summary == Summary(appointment.isExam, user)
    ensures e.location == EventLocation(appointment) && e.location != ""
  {
    CalendarEvent(
      Summary(appointment.isExam, user),
      EventTime(appointment.startTime, TimeZone),
      EventTime(appointment.endTime, TimeZone),
      EventLocation(appointment))
  }

  // ---------------------------------------------------------------------
  // The private key

  /** `s` holds no backslash immediately followed by `n`. */
  predicate NoEscapedNewline(s: string)
  {
    forall i :: 0 <= i < |s| - 1 ==> !(s[i] == '\\' && s[i + 1] == 'n')
  }

  /** `replace(/\\n/g, '\n')`: each backslash-`n` pair, scanned left to right, becomes a newline. */
  function NormalizeKey(s: string): (r: string)
    ensures |r| <= |s|
    // The first-character clause carries the induction of NoEscapedNewline:
    // a backslash kept in front of the rest is never followed by an `n`.
    ensures s != [] ==> r != [] && (r[0] == 'n' <==> s[0] == 'n')
    ensures NoEscapedNewline(r)
  {
    if s == [] then []
    else if |s| >= 2 && s[0] == '\\' && s[1] == 'n' then ['\n'] + NormalizeKey(s[2..])
    else [s[0]] + NormalizeKey(s[1..])
  }

  /**
   * Normalisation works piecewise: the two halves of a key are normalised on
   * their own unless a backslash at the end of `a` pairs with an `n` opening `b`.
   */
  lemma {:induction false} NormalizeKeyAppend(a: string, b: string)
    requires a == [] || b == [] || !(a[|a| - 1] == '\\' && b[0] == 'n')
    ensures NormalizeKey(a + b) == NormalizeKey(a) + NormalizeKey(b)
    decreases |a|
  {
    if a == [] {
      assert a + b == b;
    } else if |a| >= 2 && a[0] == '\\' && a[1] == 'n' {
      var rest := a[2..];
      assert rest == [] || rest[|rest| - 1] == a[|a| - 1];
      NormalizeKeyAppend(rest, b);
      assert a == ['\\', 'n'] + rest;
      NormalizeKeyPairStep(rest, b);
    } else {
      var rest := a[1..];
      assert rest == [] || rest[|rest| - 1] == a[|a| - 1];
      NormalizeKeyAppend(rest, b);
      assert a == [a[0]] + rest;
      // No pair opens `a + b`: inside `a` by the branch, across the seam by the requires.
      NoPairAcrossSeam(a[0], rest, b);
      NormalizeKeyPlainHead(a[0], rest + b);
      NormalizeKeyPlainHead(a[0], rest);
      NormalizeKeyPlainStep(a[0], rest, b);
    }
  }

  /** The step of NormalizeKeyAppend when `a` opens with a pair. */
  lemma NormalizeKeyPairStep(rest: string, b: string)
    requires NormalizeKey(rest + b) == NormalizeKey(rest) + NormalizeKey(b)
    ensures NormalizeKey(['\\', 'n'] + rest + b) == NormalizeKey(['\\', 'n'] + rest) + NormalizeKey(b)
  {
    assert ['\\', 'n'] + rest + b == ['\\', 'n'] + (rest + b);
    assert (['\\', 'n'] + (rest + b))[2..] == rest + b;
    assert (['\\', 'n'] + rest)[2..] == rest;
  }

  /** The step of NormalizeKeyAppend when the leading `c` of `a` is kept on both sides. */
  lemma NormalizeKeyPlainStep(c: char, rest: string, b: string)
    requires NormalizeKey([c] + (rest + b)) == [c] + NormalizeKey(rest + b)
    requires NormalizeKey([c] + rest) == [c] + NormalizeKey(rest)
    requires NormalizeKey(rest + b) == NormalizeKey(rest) + NormalizeKey(b)
    ensures NormalizeKey([c] + rest + b) == NormalizeKey([c] + rest) + NormalizeKey(b)
  {
    ConsAssoc(c, rest, b);
    ConsAssoc(c, NormalizeKey(rest), NormalizeKey(b));
  }

  /** Re-association of a one-element prefix, kept apart from the facts about NormalizeKey. */
  lemma ConsAssoc<X>(c: X, x: seq<X>, y: seq<X>)
    ensures [c] + x + y == [c] + (x + y)
  {
  }

  /** A character that opens no pair with `rest`, nor with `b` when `rest` is empty, opens none with `rest + b`. */
  lemma NoPairAcrossSeam(c: char, rest: string, b: string)
    requires !(c == '\\' && rest != [] && rest[0] == 'n')
    requires !(c == '\\' && rest == [] && b != [] && b[0] == 'n')
    ensures !(c == '\\' && rest + b != [] && (rest + b)[0] == 'n')
  {
    if rest == [] {
      assert rest + b == b;
    }
  }

  /** Unfolding: a leading character that opens no pair is kept. */
  lemma NormalizeKeyPlainHead(c: char, t: string)
    requires !(c == '\\' && t != [] && t[0] == 'n')
    ensures NormalizeKey([c] + t) == [c] + NormalizeKey(t)
  {
    assert ([c] + t)[1..] == t;
  }

  /** Every backslash-`n` pair becomes a newline, whatever surrounds it. */
  lemma NormalizeKeySplit(a: string, b: string)
    ensures NormalizeKey(a + ['\\', 'n'] + b) == NormalizeKey(a) + ['\n'] + NormalizeKey(b)
  {
    assert a + ['\\', 'n'] + b == a + (['\\', 'n'] + b);
    NormalizeKeyAppend(a, ['\\', 'n'] + b);
    assert (['\\', 'n'] + b)[2..] == b;
  }

  /** Text without escaped newlines passes through unchanged. */
  lemma {:induction false} NormalizeKeyFixesPlain(s: string)
    requires NoEscapedNewline(s)
    ensures NormalizeKey(s) == s
  {
    if s != [] {
      assert NoEscapedNewline(s[1..]);
      NormalizeKeyFixesPlain(s[1..]);
    }
  }

  lemma NormalizeKeyIdempotent(s: string)
    ensures NormalizeKey(NormalizeKey(s)) == NormalizeKey(s)
  {
    NormalizeKeyFixesPlain(NormalizeKey(s));
  }

  /** How a multi-line key is written into a one-line environment variable. */
  function EscapeNewlines(s: string): (r: string)
    ensures s != [] ==> r != [] && (r[0] == 'n' <==> s[0] == 'n')
  {
    if s == [] then []
    else (if s[0] == '\n' then ['\\', 'n'] else [s[0]]) + EscapeNewlines(s[1..])
  }

  /** Normalisation undoes escaping for every key that has no backslash-`n` of its own. */
  lemma {:induction false} NormalizeKeyUndoesEscape(s: string)
    requires NoEscapedNewline(s)
    ensures NormalizeKey(EscapeNewlines(s)) == s
  {
    if s != [] {
      assert NoEscapedNewline(s[1..]);
      NormalizeKeyUndoesEscape(s[1..]);
      var tail := EscapeNewlines(s[1..]);
      if s[0] == '\n' {
        assert EscapeNewlines(s) == ['\\', 'n'] + tail;
        assert EscapeNewlines(s)[2..] == tail;
      } else {
        assert EscapeNewlines(s) == [s[0]] + tail;
        assert EscapeNewlines(s)[1..] == tail;
        if s[0] == '\\' && tail != [] {
          assert s[1] != 'n';
        }
      }
    }
  }

  /** The key handed to the JWT client: normalised when the variable is set, otherwise undefined. */
  function ServiceKey(privateKey: Option<string>): (key: Option<string>)
    ensures key.None? <==> !Present(privateKey)
    ensures key.Some? ==> key.value == NormalizeKey(privateKey.value)
    ensures key.Some? ==> NoEscapedNewline(key.value) && |key.value| <= |privateKey.value|
  {
    if Present(privateKey) then Some(NormalizeKey(privateKey.value)) else None
  }
}
