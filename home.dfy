/**
 * The search form of `Home.tsx`: a blank check on the entered registration
 * number, then (after a delay) the lookup, which sets the shown student or
 * an error message.
 */
module HomePage {
  import opened Common
  import MockStudents

  const EnterRegNo := "Please enter a registration number"
  const NoStudentFound := "No student found with this registration number"

  datatype SearchOutcome = EmptyQuery | Found(student: MockStudents.Student) | NotFound

  /** What submitting `regNo` leads to: refused when it is blank after
      trimming, otherwise the lookup of the UNTRIMMED text. */
  function Search(regNo: string): (o: SearchOutcome)
    ensures o.EmptyQuery? <==> Blank(regNo)
    ensures o.Found? ==> o.student.regNo == regNo && o.student in MockStudents.Seed
    ensures o.Found? ==> MockStudents.GetStudentByRegNo(regNo) == Some(o.student)
    ensures o.NotFound? <==>
      !Blank(regNo) && forall i | 0 <= i < |MockStudents.Seed| :: MockStudents.Seed[i].regNo != regNo
  {
    if Blank(regNo) then EmptyQuery
    else match MockStudents.GetStudentByRegNo(regNo)
      case Some(st) => Found(st)
      case None => NotFound
  }

  /** Surrounding spaces pass the blank check but then find nothing. */
  lemma {:induction false} PaddedQueryNotFound(regNo: string)
    requires !Blank(regNo)
    requires IsWs(regNo[0]) || IsWs(regNo[|regNo| - 1])
    ensures Search(regNo) == NotFound
  {
    MockStudents.PaddedQueryNotFound(regNo);
  }

  /** `STU001` shows John Doe; a blank query is refused. */
  lemma SearchExamples()
    ensures Search("STU001") == Found(MockStudents.Seed[0])
    ensures Search("") == EmptyQuery && Search(" \t ") == EmptyQuery
  {
    MockStudents.LookupExamples();
    assert !IsWs("STU001"[0]);
  }

  /** The page's state. */
  class Home {
    var regNo: string
    var student: Option<MockStudents.Student>
    var error: string
    var isSearching: bool

    constructor ()
      ensures regNo == "" && student == None && error == "" && !isSearching
    {
      regNo := "";
      student := None;
      error := "";
      isSearching := false;
    }

    /** `handleSearch` up to the delayed block: clears the error, refuses a
        blank query, otherwise marks a search as running. Returns whether a
        lookup was scheduled. */
    method HandleSearch() returns (started: bool)
      modifies this
      ensures started <==> !Search(old(regNo)).EmptyQuery?
      ensures error == (if started then "" else EnterRegNo)
      ensures isSearching == (started || old(isSearching))
      ensures regNo == old(regNo) && student == old(student)
    {
      error := "";
      if Blank(regNo) {
        error := EnterRegNo;
        started := false;
        return;
      }
      isSearching := true;
      started := true;
    }

    /** The delayed block, for the `query` the handler captured: the shown
        student becomes the lookup's result, a miss also sets the error. */
    method CompleteSearch(query: string)
      modifies this
      ensures student == MockStudents.GetStudentByRegNo(query)
      ensures error == (if student.Some? then old(error) else NoStudentFound)
      ensures !isSearching && regNo == old(regNo)
    {
      var found := MockStudents.GetStudentByRegNo(query);
      if found.Some? {
        student := found;
      } else {
        error := NoStudentFound;
        student := None;
      }
      isSearching := false;
    }

    /** A whole submit, the delayed block run right after the handler. */
    method Submit()
      modifies this
      ensures regNo == old(regNo)
      ensures Search(old(regNo)).EmptyQuery? ==>
        error == EnterRegNo && student == old(student) && isSearching == old(isSearching)
      ensures Search(old(regNo)).Found? ==>
        error == "" && student == Some(Search(old(regNo)).student) && !isSearching
      ensures Search(old(regNo)).NotFound? ==>
        error == NoStudentFound && student == None && !isSearching
    {
      var started := HandleSearch();
      if started {
        CompleteSearch(regNo);
      }
    }
  }
}
