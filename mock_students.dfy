/**
 * The fixed student list of `mockStudents.ts` and its lookup by
 * registration number: an exact, case- and whitespace-sensitive `find`.
 */
module MockStudents {
  import opened Common

  datatype Student = Student(id: string, name: string, regNo: string, course: string, year: int, email: string)

  /** The five seeded records, in list order. */
  const Seed: seq<Student> := [
    Student("1", "John Doe", "STU001", "Computer Science", 3, "john.doe@example.com"),
    Student("2", "Jane Smith", "STU002", "Information Technology", 2, "jane.smith@example.com"),
    Student("3", "Michael Johnson", "STU003", "Data Science", 4, "michael.johnson@example.com"),
    Student("4", "Sarah Williams", "STU004", "Artificial Intelligence", 3, "sarah.williams@example.com"),
    Student("5", "Robert Brown", "STU005", "Cybersecurity", 2, "robert.brown@example.com")
  ]

  /** `getStudentByRegNo(regNo)`: the first record of the list whose
      `regNo` is exactly the argument, or `None` (`undefined`) when there
      is none. */
  function GetStudentByRegNo(regNo: string): (r: Option<Student>)
    ensures r.None? <==> forall i | 0 <= i < |Seed| :: Seed[i].regNo != regNo
    ensures r.Some? ==> r.value.regNo == regNo
    ensures r.Some? ==>
      exists i | 0 <= i < |Seed| :: Seed[i] == r.value && forall j | 0 <= j < i :: Seed[j].regNo != regNo
  {
    match FirstIndex(Seed, (st: Student) => st.regNo == regNo)
    case Some(i) => Some(Seed[i])
    case None => None
  }

  /** The registration numbers of the seed are pairwise distinct. */
  lemma SeedRegNosDistinct()
    ensures forall i, j | 0 <= i < j < |Seed| :: Seed[i].regNo != Seed[j].regNo
  {
  }

  /** So at most one record can match, and a hit is that record. */
  lemma LookupFindsTheUniqueMatch(regNo: string, i: nat)
    requires i < |Seed| && Seed[i].regNo == regNo
    ensures GetStudentByRegNo(regNo) == Some(Seed[i])
  {
    SeedRegNosDistinct();
    var r := GetStudentByRegNo(regNo);
    assert r.Some?;
    var k :| 0 <= k < |Seed| && Seed[k] == r.value;
    assert Seed[k].regNo == regNo;
  }

  /** Each seeded registration number is `S`, four characters, a digit:
      its first and last characters are not whitespace. */
  lemma SeedRegNoShape(i: nat)
    requires i < |Seed|
    ensures |Seed[i].regNo| == 6 && Seed[i].regNo[0] == 'S' && IsDigit(Seed[i].regNo[5])
    ensures !IsWs(Seed[i].regNo[0]) && !IsWs(Seed[i].regNo[5])
  {
  }

  /** A query that starts or ends with whitespace finds nothing: the
      lookup does not trim. */
  lemma {:induction false} PaddedQueryNotFound(regNo: string)
    requires |regNo| > 0 && (IsWs(regNo[0]) || IsWs(regNo[|regNo| - 1]))
    ensures GetStudentByRegNo(regNo) == None
  {
    var r := GetStudentByRegNo(regNo);
    if r.Some? {
      var k :| 0 <= k < |Seed| && Seed[k] == r.value;
      SeedRegNoShape(k);
      assert false;
    }
  }

  /** `STU001` is John Doe; lookup is case-sensitive and does not trim. */
  lemma LookupExamples()
    ensures GetStudentByRegNo("STU001") == Some(Seed[0]) && Seed[0].name == "John Doe"
    ensures GetStudentByRegNo("stu001") == None
    ensures GetStudentByRegNo(" STU001") == None
    ensures GetStudentByRegNo("NOPE") == None
  {
    LookupFindsTheUniqueMatch("STU001", 0);
    PaddedQueryNotFound(" STU001");
  }
}
