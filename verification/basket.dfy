/** The basket routes of the course API as a state machine over the session:
    search-input validation, adding and removing whole courses and single
    sections, clearing, the write-once major and named saved baskets. Each
    handler is a function from the session and the request body to a
    status code and the next session; a refused request leaves the session
    as it was. The database's existence checks are parameters. */
module Basket {
  import opened Wrappers
  import opened Http
  import opened Assoc
  import opened Seqs
  import opened Strings
  import opened Organize

  /** `{ courses, sections, savedAt }` of `savedBaskets[name]`. */
  datatype SavedBasket = SavedBasket(courses: seq<string>, sections: seq<SectionRef>, savedAt: string)

  /** The session fields the routes use. A list the session has never held
      reads as `[]` everywhere in these routes, so it is modelled as `[]`. */
  datatype Session = Session(courses: seq<string>, sections: seq<SectionRef>, major: Option<string>,
                             saved: Assoc<string, SavedBasket>)

  datatype Reply = Reply(status: nat, session: Session)

  /** A request field that JavaScript treats as true: present and not `""`. */
  predicate Truthy(s: Option<string>) {
    s.Some? && s.value != ""
  }

  // ---------------------------------------------------------------------------
  // Search input
  // ---------------------------------------------------------------------------

  /** `courseName.replace(/\s+/g, '').toLowerCase()`. */
  function NormalizeName(name: string): (key: string)
    ensures |key| <= |name|
    ensures forall i :: 0 <= i < |key| ==> !IsJsSpace(key[i]) && !IsAsciiUpper(key[i])
  {
    AsciiLower(RemoveSpaces(name))
  }

  lemma RemoveSpacesNone(s: string)
    requires forall i :: 0 <= i < |s| ==> !IsJsSpace(s[i])
    ensures RemoveSpaces(s) == s
    decreases |s|
  {
    if |s| > 0 {
      RemoveSpacesNone(s[1..]);
    }
  }

  /** A normalised key is its own normal form, so normalising twice is
      normalising once. */
  lemma NormalizeIdempotent(name: string)
    ensures NormalizeName(NormalizeName(name)) == NormalizeName(name)
  {
    var key := NormalizeName(name);
    RemoveSpacesNone(key);
    forall i | 0 <= i < |key| ensures LowerChar(key[i]) == key[i] {
    }
  }

  /** The validation of `POST /search`: `None` for the 400 answers (no name,
      or fewer than two characters once trimmed), else the normalised key. */
  function SearchKey(courseName: Option<string>): (r: Option<string>)
    ensures r.Some? <==> Truthy(courseName) && |JsTrim(courseName.value)| >= 2
    ensures r.Some? ==> r.value == NormalizeName(courseName.value)
  {
    if !Truthy(courseName) then None
    else if |JsTrim(courseName.value)| < 2 then None
    else Some(NormalizeName(courseName.value))
  }

  // ---------------------------------------------------------------------------
  // The basket invariant
  // ---------------------------------------------------------------------------

  /** No course twice, no section twice, and no course both whole and by
      section. */
  predicate BasketOk(courses: seq<string>, sections: seq<SectionRef>) {
    && NoDups(courses)
    && NoDups(sections)
    && forall i :: 0 <= i < |courses| ==> !SectionSpecific(sections, courses[i])
  }

  // ---------------------------------------------------------------------------
  // POST /add
  // ---------------------------------------------------------------------------

  /** The heuristic of `/add`: the section name, spaces removed and upper
      case, contains the course code treated the same way. */
  predicate SectionMatches(course: string, section: string) {
    Contains(AsciiUpper(RemoveSpaces(section)), AsciiUpper(RemoveSpaces(course)))
  }

  /** `/add` without a section. */
  function AddWholeCourse(s: Session, course: string, courseExists: string -> bool): (r: Reply)
    ensures r.status == Ok <==> courseExists(course) && course !in s.courses && !SectionSpecific(s.sections, course)
    ensures r.status == Ok ==> r.session == s.(courses := s.courses + [course])
    ensures r.status != Ok ==> r.session == s && r.status == (if courseExists(course) then BadRequest else NotFound)
  {
    if !courseExists(course) then Reply(NotFound, s)
    else if course in s.courses then Reply(BadRequest, s)
    else if SectionSpecific(s.sections, course) then Reply(BadRequest, s)
    else Reply(Ok, s.(courses := s.courses + [course]))
  }

  /** `/add` with a section. */
  function AddSection(s: Session, course: string, section: string, sectionExists: (string, string) -> bool): (r: Reply)
    ensures r.status == Ok <==>
      sectionExists(course, section) && SectionMatches(course, section) &&
      SectionRef(course, section) !in s.sections && course !in s.courses
    ensures r.status == Ok ==> r.session == s.(sections := s.sections + [SectionRef(course, section)])
    ensures r.status != Ok ==> r.session == s && r.status == (if sectionExists(course, section) then BadRequest else NotFound)
  {
    if !sectionExists(course, section) then Reply(NotFound, s)
    else if !SectionMatches(course, section) then Reply(BadRequest, s)
    else if SectionRef(course, section) in s.sections then Reply(BadRequest, s)
    else if course in s.courses then Reply(BadRequest, s)
    else Reply(Ok, s.(sections := s.sections + [SectionRef(course, section)]))
  }

  /** `POST /add`: a missing course code is refused; a missing section adds
      the whole course. */
  function Add(s: Session, course: Option<string>, section: Option<string>,
               courseExists: string -> bool, sectionExists: (string, string) -> bool): (r: Reply)
    ensures !Truthy(course) ==> r == Reply(BadRequest, s)
    ensures Truthy(course) && section.None? ==> r == AddWholeCourse(s, course.value, courseExists)
    ensures Truthy(course) && section.Some? ==> r == AddSection(s, course.value, section.value, sectionExists)
  {
    if !Truthy(course) then Reply(BadRequest, s)
    else if section.None? then AddWholeCourse(s, course.value, courseExists)
    else AddSection(s, course.value, section.value, sectionExists)
  }

  lemma NoDupsSnoc<T>(xs: seq<T>, x: T)
    requires NoDups(xs) && x !in xs
    ensures NoDups(xs + [x])
  {
  }

  /** Adding keeps the basket free of repeats and of courses taken both
      ways. */
  lemma AddKeepsBasketOk(s: Session, course: Option<string>, section: Option<string>,
                         courseExists: string -> bool, sectionExists: (string, string) -> bool)
    requires BasketOk(s.courses, s.sections)
    ensures var r := Add(s, course, section, courseExists, sectionExists);
      BasketOk(r.session.courses, r.session.sections)
  {
    var r := Add(s, course, section, courseExists, sectionExists);
    if r.status == Ok {
      if section.None? {
        NoDupsSnoc(s.courses, course.value);
      } else {
        var ref := SectionRef(course.value, section.value);
        NoDupsSnoc(s.sections, ref);
        var secs := s.sections + [ref];
        forall i | 0 <= i < |s.courses| ensures !SectionSpecific(secs, s.courses[i]) {
          assert !SectionSpecific(s.sections, s.courses[i]);
          assert s.courses[i] != course.value;
        }
      }
    }
  }

  // ---------------------------------------------------------------------------
  // POST /remove
  // ---------------------------------------------------------------------------

  /** `xs.filter(c => c !== x)`. */
  function Without(xs: seq<string>, x: string): (r: seq<string>)
    ensures x !in r
    ensures forall y :: y != x ==> (y in r <==> y in xs)
    ensures |r| <= |xs|
    decreases |xs|
  {
    if |xs| == 0 then []
    else (if xs[0] == x then [] else [xs[0]]) + Without(xs[1..], x)
  }

  lemma {:induction false} WithoutAbsent(xs: seq<string>, x: string)
    requires x !in xs
    ensures Without(xs, x) == xs
    decreases |xs|
  {
    if |xs| > 0 {
      WithoutAbsent(xs[1..], x);
      assert xs == [xs[0]] + xs[1..];
    }
  }

  lemma {:induction false} WithoutSnoc(xs: seq<string>, x: string)
    ensures Without(xs + [x], x) == Without(xs, x)
    decreases |xs|
  {
    if |xs| == 0 {
      assert Without([x], x) == [] + Without([], x);
    } else {
      assert (xs + [x])[1..] == xs[1..] + [x];
      WithoutSnoc(xs[1..], x);
    }
  }

  lemma {:induction false} WithoutNoDups(xs: seq<string>, x: string)
    requires NoDups(xs)
    ensures NoDups(Without(xs, x))
    decreases |xs|
  {
    if |xs| > 0 {
      var t := xs[1..];
      assert NoDups(t);
      WithoutNoDups(t, x);
      assert xs[0] !in t;
    }
  }

  /** `findIndex(s => s.course === course && s.section === section)`. */
  function FindRef(sections: seq<SectionRef>, ref: SectionRef): (r: Option<nat>)
    ensures r.Some? ==> r.value < |sections| && sections[r.value] == ref
    ensures r.Some? ==> forall i :: 0 <= i < r.value ==> sections[i] != ref
    ensures r.None? <==> ref !in sections
    decreases |sections|
  {
    if |sections| == 0 then None
    else if sections[|sections| - 1] == ref && ref !in sections[..|sections| - 1] then Some(|sections| - 1)
    else match FindRef(sections[..|sections| - 1], ref)
      case Some(i) => Some(i)
      case None =>
        assert sections == sections[..|sections| - 1] + [sections[|sections| - 1]];
        None
  }

  /** `/remove` without a section: every copy of the course dropped. */
  function RemoveWholeCourse(s: Session, course: string): (r: Reply)
    ensures r.status == Ok <==> course in s.courses
    ensures r.status == Ok ==> r.session == s.(courses := Without(s.courses, course))
    ensures r.status != Ok ==> r == Reply(BadRequest, s)
  {
    if course !in s.courses then Reply(BadRequest, s)
    else Reply(Ok, s.(courses := Without(s.courses, course)))
  }

  /** `/remove` with a section: only the first matching entry spliced out. */
  function RemoveSection(s: Session, course: string, section: string): (r: Reply)
    ensures r.status == Ok <==> SectionRef(course, section) in s.sections
    ensures r.status == Ok ==>
      var i := FindRef(s.sections, SectionRef(course, section)).value;
      r.session == s.(sections := Splice(s.sections, i))
    ensures r.status != Ok ==> r == Reply(BadRequest, s)
  {
    match FindRef(s.sections, SectionRef(course, section))
    case None => Reply(BadRequest, s)
    case Some(i) => Reply(Ok, s.(sections := Splice(s.sections, i)))
  }

  /** `POST /remove`. */
  function Remove(s: Session, course: Option<string>, section: Option<string>): (r: Reply)
    ensures !Truthy(course) ==> r == Reply(BadRequest, s)
    ensures Truthy(course) && section.None? ==> r == RemoveWholeCourse(s, course.value)
    ensures Truthy(course) && section.Some? ==> r == RemoveSection(s, course.value, section.value)
  {
    if !Truthy(course) then Reply(BadRequest, s)
    else if section.None? then RemoveWholeCourse(s, course.value)
    else RemoveSection(s, course.value, section.value)
  }

  /** `xs.splice(i, 1)`. */
  function Splice<T>(xs: seq<T>, i: nat): (r: seq<T>)
    requires i < |xs|
    ensures |r| == |xs| - 1
    ensures forall k :: 0 <= k < |r| ==> r[k] == if k < i then xs[k] else xs[k + 1]
  {
    xs[..i] + xs[i + 1..]
  }

  lemma SpliceNoDups(xs: seq<SectionRef>, i: nat)
    requires NoDups(xs) && i < |xs|
    ensures NoDups(Splice(xs, i))
  {
    var r := Splice(xs, i);
    forall a, b | 0 <= a < b < |r| ensures r[a] != r[b] {
      var a' := if a < i then a else a + 1;
      var b' := if b < i then b else b + 1;
      assert r[a] == xs[a'] && r[b] == xs[b'];
    }
  }

  /** Removing keeps the basket invariant. */
  lemma RemoveKeepsBasketOk(s: Session, course: Option<string>, section: Option<string>)
    requires BasketOk(s.courses, s.sections)
    ensures var r := Remove(s, course, section);
      BasketOk(r.session.courses, r.session.sections)
  {
    var r := Remove(s, course, section);
    if r.status == Ok {
      if section.None? {
        WithoutNoDups(s.courses, course.value);
        var cs := Without(s.courses, course.value);
        forall i | 0 <= i < |cs| ensures !SectionSpecific(s.sections, cs[i]) {
          assert cs[i] in s.courses;
          var j :| 0 <= j < |s.courses| && s.courses[j] == cs[i];
        }
      } else {
        var i := FindRef(s.sections, SectionRef(course.value, section.value)).value;
        SpliceNoDups(s.sections, i);
        var secs := Splice(s.sections, i);
        forall c | 0 <= c < |s.courses| ensures !SectionSpecific(secs, s.courses[c]) {
          forall k | 0 <= k < |secs| ensures secs[k].course != s.courses[c] {
            var k' := if k < i then k else k + 1;
            assert secs[k] == s.sections[k'];
          }
        }
      }
    }
  }

  /** Removing what was just added gives back the session as it was. */
  lemma RemoveAfterAdd(s: Session, course: string, section: Option<string>,
                        courseExists: string -> bool, sectionExists: (string, string) -> bool)
    requires course != ""
    requires Add(s, Some(course), section, courseExists, sectionExists).status == Ok
    ensures Remove(Add(s, Some(course), section, courseExists, sectionExists).session, Some(course), section) == Reply(Ok, s)
  {
    var s' := Add(s, Some(course), section, courseExists, sectionExists).session;
    if section.None? {
      WithoutSnoc(s.courses, course);
      WithoutAbsent(s.courses, course);
    } else {
      var ref := SectionRef(course, section.value);
      assert s'.sections == s.sections + [ref];
      assert FindRef(s'.sections, ref) == Some(|s.sections|);
      assert Splice(s'.sections, |s.sections|) == s.sections;
    }
  }

  // ---------------------------------------------------------------------------
  // GET /basket and DELETE /basket/clear
  // ---------------------------------------------------------------------------

  /** The body of `GET /basket`. */
  datatype BasketView = BasketView(courses: seq<string>, sections: seq<SectionRef>, major: Option<string>, totalItems: nat)

  function ViewBasket(s: Session): (v: BasketView)
    ensures v.courses == s.courses && v.sections == s.sections && v.major == s.major
    ensures v.totalItems == |v.courses| + |v.sections|
  {
    BasketView(s.courses, s.sections, s.major, |s.courses| + |s.sections|)
  }

  /** `DELETE /basket/clear`: both lists emptied, nothing else touched. */
  function ClearBasket(s: Session): (r: Reply)
    ensures r.status == Ok
    ensures r.session.courses == [] && r.session.sections == []
    ensures r.session.major == s.major && r.session.saved == s.saved
  {
    Reply(Ok, s.(courses := [], sections := []))
  }

  /** The count the basket shows goes up by one on every successful add, and
      to zero on clear. */
  lemma TotalItemsTrack(s: Session, course: Option<string>, section: Option<string>,
                        courseExists: string -> bool, sectionExists: (string, string) -> bool)
    ensures var r := Add(s, course, section, courseExists, sectionExists);
      ViewBasket(r.session).totalItems == ViewBasket(s).totalItems + (if r.status == Ok then 1 else 0)
    ensures ViewBasket(ClearBasket(s).session).totalItems == 0
  {
  }

  // ---------------------------------------------------------------------------
  // POST /major
  // ---------------------------------------------------------------------------

  const AllowedMajors: seq<string> := [
    "Computer Engineering",
    "Electrical - Electronics Engineering",
    "Industrial Engineering",
    "Civil Engineering",
    "Mechanical Engineering",
    "Artificial Intelligence and Data Engineering",
    "Economics",
    "Entrepreneurship",
    "Business Administration",
    "International Finance",
    "International Trade and Business Management",
    "Management Information Systems",
    "Industrial Design",
    "Interior Architecture and Environmental Design",
    "Communication and Design",
    "Architecture (English)",
    "Architecture (Turkish)",
    "Aviation Management",
    "Pilot Training",
    "Psychology",
    "International Relations",
    "Anthropology",
    "Gastronomy and Culinary Arts",
    "Hotel Management",
    "Law",
    "Prefer not to share",
    "Master / PhD"
  ]

  /** `POST /major`: a missing major is 400; one already set is 403 before
      the allow-list is consulted; an unlisted major is 400. */
  function SetMajor(s: Session, major: Option<string>): (r: Reply)
    ensures r.status == Ok <==> Truthy(major) && !Truthy(s.major) && major.value in AllowedMajors
    ensures r.status == Ok ==> r.session == s.(major := major)
    ensures r.status != Ok ==> r.session == s
    ensures r.status == Forbidden <==> Truthy(major) && Truthy(s.major)
  {
    if !Truthy(major) then Reply(BadRequest, s)
    else if Truthy(s.major) then Reply(Forbidden, s)
    else if major.value !in AllowedMajors then Reply(BadRequest, s)
    else Reply(Ok, s.(major := major))
  }

  /** Once a major is set, no later request changes it. */
  lemma MajorWriteOnce(s: Session, major: Option<string>, other: Option<string>)
    requires SetMajor(s, major).status == Ok
    ensures var s' := SetMajor(s, major).session;
      SetMajor(s', other).status != Ok && SetMajor(s', other).session == s' && s'.major == major
  {
  }

  // ---------------------------------------------------------------------------
  // Saved baskets
  // ---------------------------------------------------------------------------

  /** `POST /baskets/save`: the current lists stored under `name`, replacing
      a basket of the same name in place. `now` is the clock's ISO string. */
  function SaveBasket(s: Session, name: Option<string>, now: string): (r: Reply)
    ensures r.status == Ok <==> Truthy(name) && JsTrim(name.value) != ""
    ensures r.status != Ok ==> r == Reply(BadRequest, s)
    ensures r.status == Ok ==>
      && r.session.courses == s.courses && r.session.sections == s.sections && r.session.major == s.major
      && forall k :: Get(r.session.saved, k) ==
           (if k == name.value then Some(SavedBasket(s.courses, s.sections, now)) else Get(s.saved, k))
  {
    if !Truthy(name) || JsTrim(name.value) == "" then Reply(BadRequest, s)
    else
      var saved := Put(s.saved, name.value, SavedBasket(s.courses, s.sections, now));
      GetPutAll(s.saved, name.value, SavedBasket(s.courses, s.sections, now));
      Reply(Ok, s.(saved := saved))
  }

  /** `POST /baskets/load`: an unknown name is 404; otherwise both lists are
      replaced by the saved ones. */
  function LoadBasket(s: Session, name: Option<string>): (r: Reply)
    ensures r.status == Ok <==> Truthy(name) && Get(s.saved, name.value).Some?
    ensures r.status != Ok ==> r == Reply(NotFound, s)
    ensures r.status == Ok ==>
      var b := Get(s.saved, name.value).value;
      r.session == s.(courses := b.courses, sections := b.sections)
  {
    if !Truthy(name) then Reply(NotFound, s)
    else match Get(s.saved, name.value)
      case None => Reply(NotFound, s)
      case Some(b) => Reply(Ok, s.(courses := b.courses, sections := b.sections))
  }

  /** `POST /baskets/remove`: an unknown name is 404; otherwise only that
      name is deleted. */
  function RemoveSaved(s: Session, name: Option<string>): (r: Reply)
    ensures r.status == Ok <==> Truthy(name) && Get(s.saved, name.value).Some?
    ensures r.status != Ok ==> r == Reply(NotFound, s)
    ensures r.status == Ok ==>
      && r.session == s.(saved := r.session.saved)
      && forall k :: Get(r.session.saved, k) == (if k == name.value then None else Get(s.saved, k))
  {
    if !Truthy(name) || Get(s.saved, name.value).None? then Reply(NotFound, s)
    else
      var saved := Delete(s.saved, name.value);
      GetDeleteAll(s.saved, name.value);
      Reply(Ok, s.(saved := saved))
  }

  /** Loading a basket right after saving it under the same name changes
      nothing. */
  lemma LoadAfterSave(s: Session, name: Option<string>, now: string)
    requires SaveBasket(s, name, now).status == Ok
    ensures var s' := SaveBasket(s, name, now).session;
      LoadBasket(s', name) == Reply(Ok, s')
  {
  }

  /** Every saved basket keeps the basket invariant. */
  predicate SavedOk(saved: Assoc<string, SavedBasket>) {
    forall i :: 0 <= i < |saved| ==> BasketOk(saved[i].1.courses, saved[i].1.sections)
  }

  /** The whole session: the live basket and every saved one. */
  predicate SessionOk(s: Session) {
    BasketOk(s.courses, s.sections) && SavedOk(s.saved)
  }

  lemma PutKeepsSavedOk(saved: Assoc<string, SavedBasket>, name: string, b: SavedBasket)
    requires SavedOk(saved) && BasketOk(b.courses, b.sections)
    ensures SavedOk(Put(saved, name, b))
  {
  }

  lemma DeleteKeepsSavedOk(saved: Assoc<string, SavedBasket>, name: string)
    requires SavedOk(saved)
    ensures SavedOk(Delete(saved, name))
  {
    var r := Delete(saved, name);
    forall i | 0 <= i < |r| ensures BasketOk(r[i].1.courses, r[i].1.sections) {
      var j :| 0 <= j < |saved| && saved[j] == r[i];
    }
  }

  /** Adding and removing keep the session invariant. */
  lemma EditsKeepSessionOk(s: Session, course: Option<string>, section: Option<string>,
                           courseExists: string -> bool, sectionExists: (string, string) -> bool)
    requires SessionOk(s)
    ensures SessionOk(Add(s, course, section, courseExists, sectionExists).session)
    ensures SessionOk(Remove(s, course, section).session)
    ensures SessionOk(ClearBasket(s).session)
  {
    AddKeepsBasketOk(s, course, section, courseExists, sectionExists);
    RemoveKeepsBasketOk(s, course, section);
  }

  /** The saved-basket handlers keep the session invariant: a basket saved
      from a good session is good, and loading one brings back a good
      basket. */
  lemma SavedHandlersKeepSessionOk(s: Session, name: Option<string>, major: Option<string>, now: string)
    requires SessionOk(s)
    ensures SessionOk(SetMajor(s, major).session)
    ensures SessionOk(SaveBasket(s, name, now).session)
    ensures SessionOk(LoadBasket(s, name).session)
    ensures SessionOk(RemoveSaved(s, name).session)
  {
    if SaveBasket(s, name, now).status == Ok {
      PutKeepsSavedOk(s.saved, name.value, SavedBasket(s.courses, s.sections, now));
    }
    if LoadBasket(s, name).status == Ok {
      var i := Find(s.saved, name.value).value;
      assert Get(s.saved, name.value).value == s.saved[i].1;
    }
    if RemoveSaved(s, name).status == Ok {
      DeleteKeepsSavedOk(s.saved, name.value);
    }
  }
}
