/**
 * The course ("vormingsmoment") routes: the public availability listing,
 * per-role registration counts, course creation and registration.
 *
 * A course's registrations are the stored registrations whose `courseId`
 * names it; roles are the strings the client sends.
 */
module Courses {
  import opened Common

  datatype Course = Course(id: nat, startTime: nat, endTime: nat)

  /** The body of `POST /register`. */
  datatype RegistrationForm = RegistrationForm(
    courseId: nat, firstName: string, lastName: string, email: string, phone: string,
    nationalNumber: string, role: string, street: string, houseNumber: string,
    city: string, postalCode: string)

  datatype Registration = Registration(id: nat, form: RegistrationForm)

  /**
   * What a course's included registrations show: the `select` clause keeps the
   * name and the role and withholds the contact and address fields.
   */
  datatype RegistrationView = RegistrationView(firstName: string, lastName: string, role: string)

  /** A course as `GET /available` returns it, with its included registrations. */
  datatype CourseWithRegistrations = CourseWithRegistrations(course: Course, registrations: seq<RegistrationView>)

  /** A course as `GET /registration-count` returns it. */
  datatype CourseCounts = CourseCounts(course: Course, registrations: seq<RegistrationView>, begeleiderCount: nat, kandidaatCount: nat)

  datatype RegisterResult = CourseNotFound | Registered(registration: Registration, course: Course)

  /** A course is offered while it has fewer than this many registrations ... */
  const MaxRegistrations: nat := 26
  /** ... and fewer than this many registrations as companion. */
  const MaxBegeleiders: nat := 20

  const Begeleider: string := "BEGELEIDER"
  const Kandidaat: string := "KANDIDAAT"

  /** The registrations included with the course `courseId`: each one naming it, once, in table order. */
  function RegistrationsOf(regs: seq<Registration>, courseId: nat): (r: seq<Registration>)
    ensures forall x :: x in r <==> x in regs && x.form.courseId == courseId
    ensures forall x :: multiset(r)[x] == if x.form.courseId == courseId then multiset(regs)[x] else 0
    ensures SubsequenceOf(r, regs)
  {
    var mine := (r: Registration) => r.form.courseId == courseId;
    FilterIsSubsequence(regs, mine);
    Filter(regs, mine)
  }

  function View(r: Registration): RegistrationView
  {
    RegistrationView(r.form.firstName, r.form.lastName, r.form.role)
  }

  /** The `select` projection applied to each registration, order kept. */
  function Views(regs: seq<Registration>): (r: seq<RegistrationView>)
    ensures |r| == |regs|
    ensures forall i :: 0 <= i < |regs| ==> r[i] == View(regs[i])
  {
    seq(|regs|, i requires 0 <= i < |regs| => View(regs[i]))
  }

  /** How many registrations in the whole table name course `courseId` with `role`. */
  function CountIn(regs: seq<Registration>, courseId: nat, role: string): nat
  {
    |Filter(regs, (r: Registration) => r.form.courseId == courseId && r.form.role == role)|
  }

  /** How many of `regs` carry `role`. */
  function RoleCount(regs: seq<Registration>, role: string): nat
  {
    |Filter(regs, (r: Registration) => r.form.role == role)|
  }

  /** The `where` clause of `GET /available`: the course starts strictly after `now`. */
  function FutureCourses(courses: seq<Course>, now: nat): seq<Course>
  {
    Filter(courses, (c: Course) => c.startTime > now)
  }

  predicate UnderTotalLimit(c: Course, regs: seq<Registration>)
  {
    |RegistrationsOf(regs, c.id)| < MaxRegistrations
  }

  predicate UnderBegeleiderLimit(c: Course, regs: seq<Registration>)
  {
    RoleCount(RegistrationsOf(regs, c.id), Begeleider) < MaxBegeleiders
  }

  /** `GET /available`: the future courses, then the two `filter` passes in the order written. */
  function AvailableCourses(courses: seq<Course>, regs: seq<Registration>, now: nat): seq<Course>
  {
    var underTotal := Filter(FutureCourses(courses, now), (c: Course) => UnderTotalLimit(c, regs));
    Filter(underTotal, (c: Course) => UnderBegeleiderLimit(c, regs))
  }

  lemma AvailableCoursesSpec(courses: seq<Course>, regs: seq<Registration>, now: nat)
    ensures forall c :: c in AvailableCourses(courses, regs, now) ==>
      && c.startTime > now
      && |RegistrationsOf(regs, c.id)| < MaxRegistrations
      && RoleCount(RegistrationsOf(regs, c.id), Begeleider) < MaxBegeleiders
    ensures forall c :: c in courses && c.startTime > now && UnderTotalLimit(c, regs) && UnderBegeleiderLimit(c, regs) ==>
      c in AvailableCourses(courses, regs, now)
    ensures SubsequenceOf(AvailableCourses(courses, regs, now), FutureCourses(courses, now))
  {
    var future := FutureCourses(courses, now);
    var underTotal := Filter(future, (c: Course) => UnderTotalLimit(c, regs));
    FilterIsSubsequence(future, (c: Course) => UnderTotalLimit(c, regs));
    FilterIsSubsequence(underTotal, (c: Course) => UnderBegeleiderLimit(c, regs));
    SubsequenceTransitive(AvailableCourses(courses, regs, now), underTotal, future);
  }

  /** Membership in the available list, one course at a time. */
  lemma AvailableMember(courses: seq<Course>, regs: seq<Registration>, now: nat, c: Course)
    ensures c in AvailableCourses(courses, regs, now) <==>
      c in courses && c.startTime > now && UnderTotalLimit(c, regs) && UnderBegeleiderLimit(c, regs)
  {
  }

  /** Appending a registration can only raise a course's counts. */
  lemma {:induction false} CountsGrow(regs: seq<Registration>, reg: Registration, id: nat)
    ensures |RegistrationsOf(regs, id)| <= |RegistrationsOf(regs + [reg], id)|
    ensures RoleCount(RegistrationsOf(regs, id), Begeleider) <= RoleCount(RegistrationsOf(regs + [reg], id), Begeleider)
  {
    var isMine := (r: Registration) => r.form.courseId == id;
    var isBegeleider := (r: Registration) => r.form.role == Begeleider;
    FilterSnoc(regs, reg, isMine);
    var mine := RegistrationsOf(regs, id);
    if isMine(reg) {
      assert RegistrationsOf(regs + [reg], id) == mine + [reg];
      FilterSnoc(mine, reg, isBegeleider);
    } else {
      assert RegistrationsOf(regs + [reg], id) == mine;
    }
  }

  /** One more registration never makes a course available again. */
  lemma RegisteringNeverFreesCourse(courses: seq<Course>, regs: seq<Registration>, reg: Registration, now: nat, c: Course)
    ensures c in AvailableCourses(courses, regs + [reg], now) ==> c in AvailableCourses(courses, regs, now)
  {
    AvailableMember(courses, regs + [reg], now, c);
    CountsGrow(regs, reg, c.id);
    AvailableMember(courses, regs, now, c);
  }

  /** Counting a role among a course's included registrations counts it in the whole table. */
  lemma RoleCountOfCourse(regs: seq<Registration>, courseId: nat, role: string)
    ensures RoleCount(RegistrationsOf(regs, courseId), role) == CountIn(regs, courseId, role)
  {
    FilterFilter(regs, (r: Registration) => r.form.courseId == courseId, (r: Registration) => r.form.role == role,
      (r: Registration) => r.form.courseId == courseId && r.form.role == role);
  }

  /** What being listed as available says about a course, with its BEGELEIDER count taken over the whole table. */
  lemma AvailableCourseFacts(courses: seq<Course>, regs: seq<Registration>, now: nat, c: Course)
    requires c in AvailableCourses(courses, regs, now)
    ensures c in courses && c.startTime > now
    ensures |RegistrationsOf(regs, c.id)| < MaxRegistrations
    ensures CountIn(regs, c.id, Begeleider) < MaxBegeleiders
  {
    AvailableMember(courses, regs, now, c);
    RoleCountOfCourse(regs, c.id, Begeleider);
  }

  /** `GET /available`: the available courses, in order, each with the projection of its registrations. */
  function AvailableListing(courses: seq<Course>, regs: seq<Registration>, now: nat): (r: seq<CourseWithRegistrations>)
    ensures |r| == |AvailableCourses(courses, regs, now)|
    ensures forall i :: 0 <= i < |r| ==>
      r[i].course == AvailableCourses(courses, regs, now)[i] && r[i].registrations == Views(RegistrationsOf(regs, r[i].course.id))
  {
    var avail := AvailableCourses(courses, regs, now);
    seq(|avail|, i requires 0 <= i < |avail| => CourseWithRegistrations(avail[i], Views(RegistrationsOf(regs, avail[i].id))))
  }

  /** Every listed course is stored, starts after now and is under both limits, counted over the whole table. */
  lemma AvailableListingSpec(courses: seq<Course>, regs: seq<Registration>, now: nat)
    ensures forall e :: e in AvailableListing(courses, regs, now) ==>
      && e.course in courses && e.course.startTime > now
      && |e.registrations| < MaxRegistrations
      && CountIn(regs, e.course.id, Begeleider) < MaxBegeleiders
  {
    var r := AvailableListing(courses, regs, now);
    forall e | e in r
      ensures e.course in courses && e.course.startTime > now
      ensures |e.registrations| < MaxRegistrations
      ensures CountIn(regs, e.course.id, Begeleider) < MaxBegeleiders
    {
      var i :| 0 <= i < |r| && r[i] == e;
      AvailableCourseFacts(courses, regs, now, e.course);
    }
  }

  /**
   * A course with the projection of its registrations and its per-role counts.
   * The counts are taken over the included registrations, whose role the
   * projection keeps.
   */
  function WithCounts(c: Course, regs: seq<Registration>): (r: CourseCounts)
    ensures r.course == c
    ensures r.registrations == Views(RegistrationsOf(regs, c.id))
    ensures r.begeleiderCount == CountIn(regs, c.id, Begeleider)
    ensures r.kandidaatCount == CountIn(regs, c.id, Kandidaat)
    ensures r.begeleiderCount + r.kandidaatCount <= |r.registrations|
  {
    var mine := RegistrationsOf(regs, c.id);
    DisjointFiltersBound(mine, (x: Registration) => x.form.role == Begeleider, (x: Registration) => x.form.role == Kandidaat);
    RoleCountOfCourse(regs, c.id, Begeleider);
    RoleCountOfCourse(regs, c.id, Kandidaat);
    CourseCounts(c, Views(mine), RoleCount(mine, Begeleider), RoleCount(mine, Kandidaat))
  }

  /** `GET /registration-count`: every course, in table order, with its counts. */
  function RegistrationCounts(courses: seq<Course>, regs: seq<Registration>): (r: seq<CourseCounts>)
    ensures |r| == |courses|
    ensures forall i :: 0 <= i < |courses| ==> r[i] == WithCounts(courses[i], regs)
    ensures forall i :: 0 <= i < |courses| ==>
      && r[i].course == courses[i]
      && r[i].begeleiderCount == CountIn(regs, courses[i].id, Begeleider)
      && r[i].kandidaatCount == CountIn(regs, courses[i].id, Kandidaat)
  {
    seq(|courses|, i requires 0 <= i < |courses| => WithCounts(courses[i], regs))
  }

  /** The first course with id `id` (`findUnique`). */
  function FindCourse(courses: seq<Course>, id: nat): (r: Option<Course>)
    ensures r.Some? ==> r.value in courses && r.value.id == id
    ensures r.None? <==> forall c :: c in courses ==> c.id != id
  {
    if courses == [] then None
    else if courses[0].id == id then Some(courses[0])
    else FindCourse(courses[1..], id)
  }

  ghost predicate UniqueCourseIds(courses: seq<Course>)
  {
    forall i, j :: 0 <= i < |courses| && 0 <= j < |courses| && i != j ==> courses[i].id != courses[j].id
  }

  ghost predicate UniqueRegistrationIds(regs: seq<Registration>)
  {
    forall i, j :: 0 <= i < |regs| && 0 <= j < |regs| && i != j ==> regs[i].id != regs[j].id
  }

  /** The course and registration tables, with their id counters. */
  class CourseStore {
    var courses: seq<Course>
    var registrations: seq<Registration>
    var nextCourseId: nat
    var nextRegistrationId: nat

    /** Course and registration ids are primary keys: unique, and below the next id handed out. */
    ghost predicate Valid()
      reads this
    {
      && UniqueCourseIds(courses) && (forall c :: c in courses ==> c.id < nextCourseId)
      && UniqueRegistrationIds(registrations) && (forall r :: r in registrations ==> r.id < nextRegistrationId)
    }

    constructor ()
      ensures Valid() && courses == [] && registrations == []
    {
      courses, registrations := [], [];
      nextCourseId, nextRegistrationId := 0, 0;
    }

    /** `POST /`: stores a course with exactly the given start and end. */
    method CreateCourse(startTime: nat, endTime: nat) returns (c: Course)
      requires Valid()
      modifies this
      ensures Valid()
      ensures c.startTime == startTime && c.endTime == endTime && c.id == old(nextCourseId)
      ensures courses == old(courses) + [c] && nextCourseId == old(nextCourseId) + 1
      ensures registrations == old(registrations) && nextRegistrationId == old(nextRegistrationId)
    {
      c := Course(nextCourseId, startTime, endTime);
      courses := courses + [c];
      nextCourseId := nextCourseId + 1;
    }

    /**
     * `POST /register`: the registration is stored first and the course looked
     * up afterwards, so an unknown course answers 404 with the registration kept.
     */
    method Register(form: RegistrationForm) returns (r: RegisterResult)
      requires Valid()
      modifies this
      ensures Valid()
      ensures registrations == old(registrations) + [Registration(old(nextRegistrationId), form)]
      ensures nextRegistrationId == old(nextRegistrationId) + 1
      ensures courses == old(courses) && nextCourseId == old(nextCourseId)
      ensures r == CourseNotFound <==> forall c :: c in courses ==> c.id != form.courseId
      ensures r.Registered? ==> r.registration == Registration(old(nextRegistrationId), form) && r.course in courses && r.course.id == form.courseId
      ensures r.Registered? ==> forall c :: c in courses && c.id == form.courseId ==> c == r.course
    {
      var reg := Registration(nextRegistrationId, form);
      registrations := registrations + [reg];
      nextRegistrationId := nextRegistrationId + 1;
      var course := FindCourse(courses, form.courseId);
      if course.None? {
        return CourseNotFound;
      }
      forall c | c in courses && c.id == form.courseId
        ensures c == course.value
      {
        var i :| 0 <= i < |courses| && courses[i] == c;
        var j :| 0 <= j < |courses| && courses[j] == course.value;
        assert i == j;
      }
      r := Registered(reg, course.value);
    }
  }
}
