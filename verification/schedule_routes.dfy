/** The schedule routes: `POST /generate` in front of `generateSchedule`,
    and `GET /info`. The service is a parameter, so the route's own logic is
    what is modelled. */
module ScheduleRoutes {
  import opened Wrappers
  import opened Http
  import opened Organize
  import opened Diagnosis

  const EmptyBasketError: string := "Basket is empty. Please add courses first."
  const AddCoursesFirst: string := "Add courses to generate schedules"
  const ReadyToGenerate: string := "Ready to generate schedules"

  /** `success` of a service response: false for the refusals. */
  predicate Success(r: Response) {
    r.NoSchedules? || r.Found?
  }

  /** The route's answer: the status and, when the service was called, its
      response, passed through unchanged. */
  datatype RouteReply = RouteReply(status: nat, body: Option<Response>)

  /** `POST /generate`. */
  function Generate(courses: seq<string>, sections: seq<SectionRef>,
                    service: (seq<string>, seq<SectionRef>) -> Response): (r: RouteReply)
    ensures courses == [] && sections == [] ==> r == RouteReply(BadRequest, None)
    ensures courses != [] || sections != [] ==>
      r.body == Some(service(courses, sections)) &&
      r.status == (if Success(service(courses, sections)) then Ok else BadRequest)
  {
    if courses == [] && sections == [] then RouteReply(BadRequest, None)
    else
      var result := service(courses, sections);
      RouteReply(if Success(result) then Ok else BadRequest, Some(result))
  }

  datatype Info = Info(courses: seq<string>, sections: seq<SectionRef>, totalItems: nat, canGenerate: bool, message: string)

  /** `GET /info`. */
  function GetInfo(courses: seq<string>, sections: seq<SectionRef>): (i: Info)
    ensures i.totalItems == |courses| + |sections|
    ensures i.canGenerate <==> i.totalItems > 0
    ensures i.message == if i.canGenerate then ReadyToGenerate else AddCoursesFirst
  {
    var total := |courses| + |sections|;
    Info(courses, sections, total, total > 0, if total == 0 then AddCoursesFirst else ReadyToGenerate)
  }

  /** `/info` says a basket can be generated exactly when `/generate` would
      pass it to the service. */
  lemma InfoAgreesWithGenerate(courses: seq<string>, sections: seq<SectionRef>,
                               service: (seq<string>, seq<SectionRef>) -> Response)
    ensures GetInfo(courses, sections).canGenerate <==> Generate(courses, sections, service).body.Some?
  {
  }
}
