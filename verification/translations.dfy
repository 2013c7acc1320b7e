/** The interface text tables of the frontend: which keys the Turkish and
    English tables define, the one message the error translator falls back
    on, and `getDayName`, which renders a Turkish day key in the chosen
    language. The day keys are `Masks.Days`, the names the backend uses. */
module Translations {
  import opened Wrappers
  import opened Seqs
  import opened Masks

  /** The two interface languages. */
  datatype Language = Tr | En

  /** The keys of `translations.tr`, in the order they are written. */
  const TrKeys: seq<string> := [
    "darkMode", "lightMode", "searchTitle", "searchPlaceholder", "searchButton",
    "clearButton", "searching", "noResults", "credits", "addEntireCourse",
    "sections", "addSection", "monday", "tuesday", "wednesday",
    "thursday", "friday", "myBasket", "clearAll", "emptyBasket",
    "entireCourses", "specificSections", "generateSchedules", "totalItems", "courseAdded",
    "sectionAdded", "courseRemoved", "sectionRemoved", "basketCleared", "courseAlreadyAdded",
    "sectionAlreadyAdded", "entireCourseAdded", "sectionExistsRemoveFirst", "cannotAddSection", "pleaseEnterCourseName",
    "errorSearching", "generatingSchedules", "noSchedulesYet", "addCoursesFirst", "schedulesGenerated",
    "schedulesFound", "noValidSchedules", "scheduleGenerationError", "basketEmpty", "schedule",
    "totalCredits", "course", "section", "lecturer", "weeklySchedule",
    "exportPDF", "exportImage", "exportCalendar", "confirmClearBasket"]

  /** The keys of `translations.en`, in the order they are written. */
  const EnKeys: seq<string> := [
    "darkMode", "lightMode", "searchTitle", "searchPlaceholder", "searchButton",
    "clearButton", "searching", "noResults", "credits", "addEntireCourse",
    "sections", "addSection", "monday", "tuesday", "wednesday",
    "thursday", "friday", "myBasket", "clearAll", "emptyBasket",
    "entireCourses", "specificSections", "generateSchedules", "totalItems", "courseAdded",
    "sectionAdded", "courseRemoved", "sectionRemoved", "basketCleared", "courseAlreadyAdded",
    "sectionAlreadyAdded", "entireCourseAdded", "sectionExistsRemoveFirst", "cannotAddSection", "pleaseEnterCourseName",
    "errorSearching", "generatingSchedules", "noSchedulesYet", "addCoursesFirst", "schedulesGenerated",
    "schedulesFound", "noValidSchedules", "scheduleGenerationError", "basketEmpty", "schedule",
    "totalCredits", "course", "section", "lecturer", "weeklySchedule",
    "exportPDF", "exportImage", "exportCalendar", "confirmClearBasket"]

  function Keys(lang: Language): seq<string> {
    match lang
    case Tr => TrKeys
    case En => EnKeys
  }

  /** A text looked up in either table is defined in the other. */
  lemma TablesShareKeys(key: string)
    ensures key in Keys(Tr) <==> key in Keys(En)
  {
  }

  /** `t.errorSearching`. */
  function ErrorSearching(lang: Language): (r: string)
    ensures |r| > 0
  {
    match lang
    case Tr => "Arama hatas\U{0131}. Backend \U{00E7}al\U{0131}\U{015F}t\U{0131}\U{011F}\U{0131}ndan emin olun."
    case En => "Search error. Make sure backend is running."
  }

  /** The English names of `Days`, index for index. */
  const EnglishDays: seq<string> := ["Monday", "Tuesday", "Wednesday", "Thursday", "Friday"]

  /** `getDayName(d, lang)`: the entry of the day map for `d` in language
      `lang`, or `d` itself when either lookup misses. */
  function GetDayName(d: string, lang: string): (r: string)
    ensures forall i :: 0 <= i < |Days| && Days[i] == d && lang == "en" ==> r == EnglishDays[i]
    ensures lang == "tr" ==> r == d
    ensures d !in Days || (lang != "en" && lang != "tr") ==> r == d
  {
    match DayIndex(d)
    case Some(i) =>
      if lang == "en" then EnglishDays[i]
      else if lang == "tr" then Days[i]
      else d
    case None => d
  }

  /** The English names are five different words, none of them a Turkish
      key, so rendering is injective and rendering twice changes nothing. */
  lemma EnglishDayNames(d: string, e: string)
    requires d in Days && e in Days
    ensures GetDayName(d, "en") == GetDayName(e, "en") ==> d == e
    ensures GetDayName(GetDayName(d, "en"), "en") == GetDayName(d, "en")
  {
    var i :| 0 <= i < |Days| && Days[i] == d;
    var j :| 0 <= j < |Days| && Days[j] == e;
    assert NoDups(EnglishDays);
    assert EnglishDays[i] !in Days;
  }
}
