/** The front end's strict university model (`IUniversity` and the records it
    holds). Floating-point fields (the rating, the IELTS minimum) are integers
    here. */
module Types {

  import opened Wrappers

  datatype AcademicProgram = AcademicProgram(
    name: string,
    degree: string,
    description: Option<string>,
    duration: Option<int>,
    language: Option<string>,
    tuitionFee: Option<int>,
    minEntScore: Option<int>,
    hasInternship: Option<bool>,
    hasDoubleDegree: Option<bool>,
    employmentRate: Option<int>)

  datatype Admissions = Admissions(
    requirements: seq<string>,
    deadlines: seq<string>,
    scholarships: seq<string>,
    procedure: string)

  datatype International = International(
    exchangePrograms: seq<string>,
    partners: seq<string>,
    foreignStudentOpps: seq<string>,
    hasExchangeProgram: Option<bool>,
    hasDoubleDegree: Option<bool>,
    requiresIelts: Option<bool>,
    minIelts: Option<int>,
    doubleDegreePrograms: Option<seq<string>>)

  datatype University = University(
    id: string,
    name: string,
    description: string,
    city: string,
    price: int,
    minEntScore: int,
    hasDormitory: bool,
    hasMilitaryDept: bool,
    rating: int,
    hasTour: Option<bool>,
    tourUrl: Option<string>,
    imageUrl: Option<string>,
    isPrivate: Option<bool>,
    languages: Option<seq<string>>,
    grantsPerYear: Option<int>,
    academicPrograms: Option<seq<AcademicProgram>>,
    admissions: Option<Admissions>,
    international: Option<International>,
    mission: Option<string>,
    history: Option<string>)
}
