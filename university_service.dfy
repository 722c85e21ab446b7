/** The adapter that turns a loosely typed backend university row (and its
    program rows) into the strict front-end `University`.

    `JSON.parse` is not modelled; callers pass it in as `parse`, a function
    that says whether a string decodes to an array (of strings), to some other
    JSON value, or does not decode at all. */
module UniversityService {

  import opened Wrappers
  import opened Text
  import opened Types

  /** What `JSON.parse` makes of a string. */
  datatype JsonResult = JsonArray(items: seq<string>) | JsonNonArray | JsonError

  /** A raw flag column: SQLite sends integers, newer backends booleans. */
  datatype RawValue = Null | Bool(b: bool) | Num(n: int)

  datatype BackendProgram = BackendProgram(
    id: int,
    universityId: int,
    name: string,
    description: Option<string>,
    degree: string,
    price: Option<int>,
    duration: Option<int>,
    language: Option<string>,
    minEntScore: Option<int>,
    internship: RawValue,
    doubleDegreeProgram: RawValue,
    employment: Option<int>)

  datatype BackendAdmissionInfo = BackendAdmissionInfo(
    requirements: Option<seq<string>>,
    deadlines: Option<seq<string>>,
    scholarships: Option<seq<string>>,
    procedure: Option<string>)

  datatype BackendUniversity = BackendUniversity(
    id: int,
    name: string,
    description: string,
    missionText: string,
    history: string,
    minEntScore: int,
    logoUrl: string,
    tourUrl: Option<string>,
    city: string,
    hasDormitory: bool,
    hasMilitaryDept: Option<bool>,
    rating: int,
    hasTour: bool,
    languages: Option<string>,
    numberOfGrants: int,
    exchangeProgram: bool,
    exchangePrograms: Option<string>,
    partners: Option<string>,
    foreignStudentOpps: Option<string>,
    doubleDegreeProgram: bool,
    doubleDegreePrograms: Option<string>,
    ieltsCertificate: bool,
    minIelts: Option<int>,
    format: Option<string>,
    price: int,
    programs: Option<seq<BackendProgram>>,
    admissionInfo: Option<BackendAdmissionInfo>)

  // ---------------------------------------------------------------------------
  // Languages

  /** The pieces of `raw` between commas, trimmed, with the empty ones dropped:
      `raw.split(',').map(l => l.trim()).filter(Boolean)`. */
  function CommaList(raw: string): (r: seq<string>)
    ensures forall x :: x in r ==> x != "" && IsTrimmed(x) && ',' !in x
  {
    TrimmedPiecesClean(Split(raw, ','), ',');
    NonEmpty(TrimAll(Split(raw, ',')))
  }

  /** Exactly the non-empty trimmed pieces of `raw.split(',')` are kept. */
  lemma CommaListPieces(raw: string)
    ensures forall i :: 0 <= i < |Split(raw, ',')| && Trim(Split(raw, ',')[i]) != "" ==> Trim(Split(raw, ',')[i]) in CommaList(raw)
    ensures forall x :: x in CommaList(raw) ==> exists i :: 0 <= i < |Split(raw, ',')| && x == Trim(Split(raw, ',')[i])
  {
    var ps := Split(raw, ',');
    forall i | 0 <= i < |ps| && Trim(ps[i]) != "" ensures Trim(ps[i]) in CommaList(raw) {
      assert TrimAll(ps)[i] == Trim(ps[i]);
    }
  }

  function TrimAll(pieces: seq<string>): (r: seq<string>)
    ensures |r| == |pieces|
    ensures forall i :: 0 <= i < |r| ==> r[i] == Trim(pieces[i])
  {
    if pieces == [] then [] else [Trim(pieces[0])] + TrimAll(pieces[1..])
  }

  function NonEmpty(pieces: seq<string>): (r: seq<string>)
    ensures forall x :: x in r <==> x in pieces && x != ""
  {
    if pieces == [] then []
    else if pieces[0] == "" then NonEmpty(pieces[1..])
    else [pieces[0]] + NonEmpty(pieces[1..])
  }

  /** The list the adapter computes from the raw `languages` field before it
      decides between the list and `undefined`. */
  function Languages(raw: Option<string>, parse: string -> JsonResult): (r: seq<string>)
    ensures raw == None || raw == Some("") ==> r == []
    ensures raw.Some? && raw.value != "" && parse(raw.value).JsonArray? ==> r == parse(raw.value).items
    ensures raw.Some? && raw.value != "" && parse(raw.value) == JsonNonArray ==> r == [raw.value]
    ensures raw.Some? && raw.value != "" && parse(raw.value) == JsonError ==> r == CommaList(raw.value)
  {
    if raw == None || raw.value == "" then []
    else match parse(raw.value)
      case JsonArray(items) => items
      case JsonNonArray => [raw.value]
      case JsonError => CommaList(raw.value)
  }

  /** The `let languagesArray` of the adapter, assigned inside `try`/`catch`. */
  method ParseLanguages(raw: Option<string>, parse: string -> JsonResult) returns (languages: seq<string>)
    ensures raw == None || raw == Some("") ==> languages == []
    ensures raw.Some? && raw.value != "" && parse(raw.value).JsonArray? ==> languages == parse(raw.value).items
    ensures raw.Some? && raw.value != "" && parse(raw.value) == JsonNonArray ==> languages == [raw.value]
    ensures raw.Some? && raw.value != "" && parse(raw.value) == JsonError ==>
              && (forall x :: x in languages ==> x != "" && IsTrimmed(x) && ',' !in x)
              && languages == CommaList(raw.value)
    ensures languages == Languages(raw, parse)
  {
    languages := [];
    if raw.Some? && raw.value != "" {
      var parsed := parse(raw.value);
      if parsed.JsonError? {
        // the catch branch
        languages := CommaList(raw.value);
      } else {
        languages := if parsed.JsonArray? then parsed.items else [raw.value];
      }
    }
  }

  /** Trimming pieces that hold no `c` gives trimmed pieces that hold no
      `c`. */
  lemma {:induction false} TrimmedPiecesClean(pieces: seq<string>, c: char)
    requires forall i :: 0 <= i < |pieces| ==> c !in pieces[i]
    ensures forall x :: x in TrimAll(pieces) ==> IsTrimmed(x) && c !in x
  {
    var trimmed := TrimAll(pieces);
    forall x | x in trimmed ensures IsTrimmed(x) && c !in x {
      var i :| 0 <= i < |trimmed| && trimmed[i] == x;
      TrimKeepsMiddle(pieces[i], c);
    }
  }

  lemma {:induction false} TrimKeepsMiddle(s: string, c: char)
    requires c !in s
    ensures c !in Trim(s)
  {
  }

  /** Writing clean language names as `a,b,c` and reading them back through
      the comma fallback gives the same names in the same order. */
  lemma {:induction false} CommaListRoundTrip(names: seq<string>)
    requires |names| >= 1
    requires forall i :: 0 <= i < |names| ==> names[i] != "" && IsTrimmed(names[i]) && ',' !in names[i]
    ensures CommaList(Join(names, [','])) == names
  {
    SplitJoin(names, ',');
    TrimAllClean(names);
    NonEmptyClean(names);
  }

  /** The comma fallback reads the text piece by piece, in order: the first
      piece, trimmed, comes first unless it is empty, then the rest. */
  lemma {:induction false} CommaListAppend(a: string, b: string)
    requires ',' !in a
    ensures CommaList(a + [','] + b) == NonEmpty([Trim(a)]) + CommaList(b)
  {
    SplitPrefix(a, b, ',');
    TrimAllCons(a, Split(b, ','));
    NonEmptyCons(Trim(a), TrimAll(Split(b, ',')));
  }

  lemma {:induction false} TrimAllCons(a: string, pieces: seq<string>)
    ensures TrimAll([a] + pieces) == [Trim(a)] + TrimAll(pieces)
  {
    assert ([a] + pieces)[1..] == pieces;
  }

  lemma {:induction false} NonEmptyCons(x: string, rest: seq<string>)
    ensures NonEmpty([x] + rest) == NonEmpty([x]) + NonEmpty(rest)
  {
    assert ([x] + rest)[1..] == rest;
    assert [x][1..] == [];
  }

  /** White space after a comma does not reach the list. */
  lemma {:induction false} CommaListSpaceFront(c: char, s: string)
    requires IsSpace(c) && c != ','
    ensures CommaList([c] + s) == CommaList(s)
  {
    var ps := Split(s, ',');
    assert ([c] + s)[1..] == s;
    assert Split([c] + s, ',') == [[c] + ps[0]] + ps[1..];
    TrimSpaceFront(c, ps[0]);
    assert TrimAll(Split([c] + s, ',')) == TrimAll(ps);
  }

  /** Names written as `a, b, c`, with a space after each comma, come back
      as they were, in order. */
  lemma {:induction false} SpacedCommaList(names: seq<string>)
    requires |names| >= 1
    requires forall i :: 0 <= i < |names| ==> names[i] != "" && IsTrimmed(names[i]) && ',' !in names[i]
    ensures CommaList(Join(names, ", ")) == names
    decreases |names|
  {
    if |names| == 1 {
      CommaListRoundTrip(names);
    } else {
      var rest := Join(names[1..], ", ");
      TrimFixedPoint(names[0]);
      calc {
        CommaList(Join(names, ", "));
        { assert Join(names, ", ") == names[0] + [','] + ([' '] + rest); }
        CommaList(names[0] + [','] + ([' '] + rest));
        { CommaListAppend(names[0], [' '] + rest); }
        NonEmpty([Trim(names[0])]) + CommaList([' '] + rest);
        { CommaListSpaceFront(' ', rest); assert NonEmpty([names[0]]) == [names[0]]; }
        [names[0]] + CommaList(rest);
        { SpacedCommaList(names[1..]); }
        [names[0]] + names[1..];
      }
    }
  }

  /** `.filter(Boolean)`: the empty piece between two commas is dropped. */
  lemma {:induction false} DoubleCommaDropped(a: string, b: string)
    requires a != "" && IsTrimmed(a) && ',' !in a
    requires b != "" && IsTrimmed(b) && ',' !in b
    ensures CommaList(a + ",," + b) == [a, b]
  {
    TrimFixedPoint(a);
    TrimFixedPoint([]);
    calc {
      CommaList(a + ",," + b);
      { assert a + ",," + b == a + [','] + ([] + [','] + b); }
      CommaList(a + [','] + ([] + [','] + b));
      { CommaListAppend(a, [] + [','] + b); assert NonEmpty([a]) == [a]; }
      [a] + CommaList([] + [','] + b);
      { CommaListAppend([], b); assert NonEmpty([Trim([])]) == []; }
      [a] + CommaList(b);
      { CommaListRoundTrip([b]); }
      [a] + [b];
    }
  }

  lemma {:induction false} TrimAllClean(names: seq<string>)
    requires forall i :: 0 <= i < |names| ==> IsTrimmed(names[i])
    ensures TrimAll(names) == names
  {
    forall i | 0 <= i < |names| ensures TrimAll(names)[i] == names[i] {
      TrimFixedPoint(names[i]);
    }
  }

  lemma {:induction false} NonEmptyClean(names: seq<string>)
    requires forall i :: 0 <= i < |names| ==> names[i] != ""
    ensures NonEmpty(names) == names
  {
    if names != [] {
      NonEmptyClean(names[1..]);
    }
  }

  // ---------------------------------------------------------------------------
  // Programs

  /** `value || undefined` for a string: the empty string is dropped too. */
  function NonEmptyText(value: Option<string>): (r: Option<string>)
    ensures r.Some? <==> value.Some? && value.value != ""
    ensures r.Some? ==> r == value
  {
    if value.Some? && value.value != "" then value else None
  }

  /** `value || undefined` for a number: zero is dropped too. */
  function NonZero(value: Option<int>): (r: Option<int>)
    ensures r.Some? <==> value.Some? && value.value != 0
    ensures r.Some? ==> r == value
  {
    if value.Some? && value.value != 0 then value else None
  }

  /** `(v != null && v > 0) ? v : null`: "no data" is `null`, including the
      zero and negative sentinels. */
  function PositiveOrNull(value: Option<int>): (r: Option<int>)
    ensures r.Some? <==> value.Some? && value.value > 0
    ensures r.Some? ==> r == value
  {
    if value.Some? && value.value > 0 then value else None
  }

  /** `v === 1 ? true : undefined`: only the integer 1 counts; `true`, other
      numbers and `null` give "no data", never `false`. */
  function FlagIsOne(value: RawValue): (r: Option<bool>)
    ensures r != Some(false)
    ensures r == Some(true) <==> value == Num(1)
  {
    if value == Num(1) then Some(true) else None
  }

  function AdaptProgram(p: BackendProgram): (r: AcademicProgram)
    ensures r.name == p.name && r.degree == p.degree
    ensures r.minEntScore == PositiveOrNull(p.minEntScore) && r.employmentRate == PositiveOrNull(p.employment)
    ensures r.minEntScore.Some? <==> p.minEntScore.Some? && p.minEntScore.value > 0
    ensures r.employmentRate.Some? <==> p.employment.Some? && p.employment.value > 0
    ensures r.description == NonEmptyText(p.description) && r.language == NonEmptyText(p.language)
    ensures r.duration == NonZero(p.duration) && r.tuitionFee == NonZero(p.price)
    ensures r.hasInternship != Some(false) && r.hasDoubleDegree != Some(false)
    ensures r.hasInternship == Some(true) <==> p.internship == Num(1)
    ensures r.hasDoubleDegree == Some(true) <==> p.doubleDegreeProgram == Num(1)
  {
    AcademicProgram(
      name := p.name,
      degree := p.degree,
      description := NonEmptyText(p.description),
      duration := NonZero(p.duration),
      language := NonEmptyText(p.language),
      tuitionFee := NonZero(p.price),
      minEntScore := PositiveOrNull(p.minEntScore),
      hasInternship := FlagIsOne(p.internship),
      hasDoubleDegree := FlagIsOne(p.doubleDegreeProgram),
      employmentRate := PositiveOrNull(p.employment))
  }

  /** `programs.filter(p => p.university_id === id)`. */
  function OwnPrograms(programs: seq<BackendProgram>, id: int): (r: seq<BackendProgram>)
    ensures |r| <= |programs|
    ensures forall p :: p in r <==> p in programs && p.universityId == id
  {
    if programs == [] then []
    else if programs[0].universityId == id then [programs[0]] + OwnPrograms(programs[1..], id)
    else OwnPrograms(programs[1..], id)
  }

  /** Filtering works piecewise, so the kept programs stay in their order. */
  lemma {:induction false} OwnProgramsAppend(a: seq<BackendProgram>, b: seq<BackendProgram>, id: int)
    ensures OwnPrograms(a + b, id) == OwnPrograms(a, id) + OwnPrograms(b, id)
  {
    if a != [] {
      var head := if a[0].universityId == id then [a[0]] else [];
      assert (a + b)[0] == a[0];
      assert (a + b)[1..] == a[1..] + b;
      assert OwnPrograms(a + b, id) == head + OwnPrograms(a[1..] + b, id);
      OwnProgramsAppend(a[1..], b, id);
    } else {
      assert a + b == b;
    }
  }

  function AdaptPrograms(programs: seq<BackendProgram>): (r: seq<AcademicProgram>)
    ensures |r| == |programs|
    ensures forall i :: 0 <= i < |r| ==> r[i] == AdaptProgram(programs[i])
  {
    if programs == [] then [] else [AdaptProgram(programs[0])] + AdaptPrograms(programs[1..])
  }

  /** `backendUni.programs || programs`: an embedded list wins, even an empty one. */
  function SourcePrograms(raw: BackendUniversity, programs: seq<BackendProgram>): (r: seq<BackendProgram>)
    ensures raw.programs.Some? ==> r == raw.programs.value
    ensures raw.programs.None? ==> r == programs
  {
    if raw.programs.Some? then raw.programs.value else programs
  }

  // ---------------------------------------------------------------------------
  // International block

  /** The adapter's `parseJsonField`: the parsed array, or `[]` for a missing
      or empty field, for malformed JSON and for JSON that is not an array. */
  function ParseJsonField(field: Option<string>, parse: string -> JsonResult): (r: seq<string>)
    ensures field == None || field == Some("") ==> r == []
    ensures field.Some? && field.value != "" && parse(field.value).JsonArray? ==> r == parse(field.value).items
    ensures field.Some? && field.value != "" && !parse(field.value).JsonArray? ==> r == []
  {
    if field == None || field.value == "" then []
    else match parse(field.value)
      case JsonArray(items) => items
      case _ => []
  }

  /** The `international` block: the three JSON list columns and the list of
      double-degree programs parsed with `parseJsonField`, the flags copied,
      and the IELTS minimum kept only when truthy (present and not 0). */
  function AdaptInternational(raw: BackendUniversity, parse: string -> JsonResult): (i: International)
    ensures i.exchangePrograms == ParseJsonField(raw.exchangePrograms, parse)
    ensures i.partners == ParseJsonField(raw.partners, parse)
    ensures i.foreignStudentOpps == ParseJsonField(raw.foreignStudentOpps, parse)
    ensures i.doubleDegreePrograms == Some(ParseJsonField(raw.doubleDegreePrograms, parse))
    ensures i.minIelts.Some? <==> raw.minIelts.Some? && raw.minIelts.value != 0
    ensures i.minIelts.Some? ==> i.minIelts == raw.minIelts
    ensures i.hasExchangeProgram == Some(raw.exchangeProgram)
    ensures i.hasDoubleDegree == Some(raw.doubleDegreeProgram)
    ensures i.requiresIelts == Some(raw.ieltsCertificate)
  {
    International(
      exchangePrograms := ParseJsonField(raw.exchangePrograms, parse),
      partners := ParseJsonField(raw.partners, parse),
      foreignStudentOpps := ParseJsonField(raw.foreignStudentOpps, parse),
      hasExchangeProgram := Some(raw.exchangeProgram),
      hasDoubleDegree := Some(raw.doubleDegreeProgram),
      requiresIelts := Some(raw.ieltsCertificate),
      minIelts := NonZero(raw.minIelts),
      doubleDegreePrograms := Some(ParseJsonField(raw.doubleDegreePrograms, parse)))
  }

  // ---------------------------------------------------------------------------
  // The whole record

  /** `format?.toLowerCase() === 'private'`. */
  function IsPrivate(format: Option<string>): (r: bool)
    ensures r <==> format.Some? && |format.value| == 7
                   && forall i :: 0 <= i < 7 ==> LowerChar(format.value[i]) == "private"[i]
  {
    format.Some? && ToLowerAscii(format.value) == "private"
  }

  /** `adaptUniversity(backendUni, programs)`. */
  function AdaptUniversity(raw: BackendUniversity, programs: seq<BackendProgram>, parse: string -> JsonResult): (r: University)
    ensures r.id == IntToString(raw.id)
    ensures r.languages != Some([])
    ensures r.languages.None? <==> Languages(raw.languages, parse) == []
    ensures r.languages.Some? ==> r.languages.value == Languages(raw.languages, parse)
    ensures r.academicPrograms != Some([])
    ensures r.academicPrograms.None? <==> OwnPrograms(SourcePrograms(raw, programs), raw.id) == []
    ensures r.academicPrograms.Some? ==>
              r.academicPrograms.value == AdaptPrograms(OwnPrograms(SourcePrograms(raw, programs), raw.id))
    ensures r.isPrivate == Some(IsPrivate(raw.format))
    ensures r.hasMilitaryDept <==> raw.hasMilitaryDept == Some(true)
    ensures r.admissions == AdaptAdmissions(raw.admissionInfo)
    ensures r.international == Some(AdaptInternational(raw, parse))
    ensures r.name == raw.name && r.description == raw.description && r.city == raw.city
    ensures r.price == raw.price && r.minEntScore == raw.minEntScore && r.rating == raw.rating
    ensures r.hasDormitory == raw.hasDormitory && r.hasTour == Some(raw.hasTour)
    ensures r.grantsPerYear == Some(raw.numberOfGrants)
    ensures r.tourUrl == NonEmptyText(raw.tourUrl) && r.imageUrl == NonEmptyText(Some(raw.logoUrl))
    ensures r.mission == Some(raw.missionText) && r.history == Some(raw.history)
  {
    var languages := Languages(raw.languages, parse);
    var academic := AdaptPrograms(OwnPrograms(SourcePrograms(raw, programs), raw.id));
    University(
      id := IntToString(raw.id),
      name := raw.name,
      description := raw.description,
      city := raw.city,
      price := raw.price,
      minEntScore := raw.minEntScore,
      hasDormitory := raw.hasDormitory,
      hasMilitaryDept := raw.hasMilitaryDept == Some(true),
      rating := raw.rating,
      hasTour := Some(raw.hasTour),
      tourUrl := NonEmptyText(raw.tourUrl),
      imageUrl := NonEmptyText(Some(raw.logoUrl)),
      isPrivate := Some(IsPrivate(raw.format)),
      languages := if |languages| > 0 then Some(languages) else None,
      grantsPerYear := Some(raw.numberOfGrants),
      academicPrograms := if |academic| > 0 then Some(academic) else None,
      admissions := AdaptAdmissions(raw.admissionInfo),
      international := Some(AdaptInternational(raw, parse)),
      mission := Some(raw.missionText),
      history := Some(raw.history))
  }

  /** The `admissions` block: absent without `admission_info`; otherwise each
      list defaults to `[]` and the procedure to `''`. */
  function AdaptAdmissions(info: Option<BackendAdmissionInfo>): (r: Option<Admissions>)
    ensures r.Some? <==> info.Some?
    ensures info.Some? ==>
              && (info.value.requirements.Some? ==> r.value.requirements == info.value.requirements.value)
              && (info.value.requirements.None? ==> r.value.requirements == [])
              && (info.value.deadlines.Some? ==> r.value.deadlines == info.value.deadlines.value)
              && (info.value.deadlines.None? ==> r.value.deadlines == [])
              && (info.value.scholarships.Some? ==> r.value.scholarships == info.value.scholarships.value)
              && (info.value.scholarships.None? ==> r.value.scholarships == [])
              && (info.value.procedure.Some? ==> r.value.procedure == info.value.procedure.value)
              && (info.value.procedure.None? ==> r.value.procedure == "")
  {
    match info
    case None => None
    case Some(a) => Some(Admissions(
      requirements := if a.requirements.Some? then a.requirements.value else [],
      deadlines := if a.deadlines.Some? then a.deadlines.value else [],
      scholarships := if a.scholarships.Some? then a.scholarships.value else [],
      procedure := if a.procedure.Some? then a.procedure.value else ""))
  }

  /** The programs of the adapted record are exactly the adapted rows whose
      `university_id` is the record's id, in their original order; rows
      embedded in the record win over the list passed alongside. */
  lemma AdaptedProgramsInOrder(raw: BackendUniversity, programs: seq<BackendProgram>, before: seq<BackendProgram>,
                               p: BackendProgram, after: seq<BackendProgram>, parse: string -> JsonResult)
    requires raw.programs == Some(before + [p] + after)
    requires p.universityId == raw.id
    ensures var r := AdaptUniversity(raw, programs, parse);
      && r.academicPrograms.Some?
      && r.academicPrograms.value
         == AdaptPrograms(OwnPrograms(before, raw.id)) + [AdaptProgram(p)] + AdaptPrograms(OwnPrograms(after, raw.id))
  {
    assert SourcePrograms(raw, programs) == before + [p] + after;
    assert p in OwnPrograms(before + [p] + after, raw.id);
    AdaptedAroundOwn(raw.id, before, p, after);
  }

  /** Filtering then adapting splits around a kept row. */
  lemma AdaptedAroundOwn(id: int, before: seq<BackendProgram>, p: BackendProgram, after: seq<BackendProgram>)
    requires p.universityId == id
    ensures AdaptPrograms(OwnPrograms(before + [p] + after, id))
      == AdaptPrograms(OwnPrograms(before, id)) + [AdaptProgram(p)] + AdaptPrograms(OwnPrograms(after, id))
  {
    var a, b := OwnPrograms(before, id), OwnPrograms(after, id);
    OwnProgramsAppend(before + [p], after, id);
    OwnProgramsAppend(before, [p], id);
    assert OwnPrograms([p], id) == [p];
    assert OwnPrograms(before + [p] + after, id) == a + [p] + b;
    AdaptProgramsAppend(a + [p], b);
    AdaptProgramsAppend(a, [p]);
    assert AdaptPrograms([p]) == [AdaptProgram(p)];
  }

  lemma {:induction false} AdaptProgramsAppend(a: seq<BackendProgram>, b: seq<BackendProgram>)
    ensures AdaptPrograms(a + b) == AdaptPrograms(a) + AdaptPrograms(b)
  {
    var l := AdaptPrograms(a + b);
    assert |l| == |AdaptPrograms(a) + AdaptPrograms(b)|;
    forall i | 0 <= i < |l| ensures l[i] == (AdaptPrograms(a) + AdaptPrograms(b))[i] {
      if i < |a| {
        assert (a + b)[i] == a[i];
      } else {
        assert (a + b)[i] == b[i - |a|];
      }
    }
  }

  /** A JSON array of languages is kept exactly as parsed: no trimming and no
      change of case. */
  lemma JsonLanguagesKept(raw: BackendUniversity, programs: seq<BackendProgram>, parse: string -> JsonResult)
    requires raw.languages.Some? && raw.languages.value != ""
    requires parse(raw.languages.value).JsonArray? && parse(raw.languages.value).items != []
    ensures AdaptUniversity(raw, programs, parse).languages == Some(parse(raw.languages.value).items)
  {
  }

  /** Clean names stored comma-separated (not JSON) reach the record as the
      same names in the same order. */
  lemma CommaLanguagesKept(raw: BackendUniversity, programs: seq<BackendProgram>, parse: string -> JsonResult,
                           names: seq<string>)
    requires |names| >= 1
    requires forall i :: 0 <= i < |names| ==> names[i] != "" && IsTrimmed(names[i]) && ',' !in names[i]
    requires raw.languages == Some(Join(names, [',']))
    requires parse(Join(names, [','])) == JsonError
    ensures AdaptUniversity(raw, programs, parse).languages == Some(names)
  {
    CommaListRoundTrip(names);
    assert Languages(raw.languages, parse) == names;
  }

  /** The same for names stored as `a, b, c`, with a space after each comma. */
  lemma SpacedLanguagesKept(raw: BackendUniversity, programs: seq<BackendProgram>, parse: string -> JsonResult,
                            names: seq<string>)
    requires |names| >= 1
    requires forall i :: 0 <= i < |names| ==> names[i] != "" && IsTrimmed(names[i]) && ',' !in names[i]
    requires raw.languages == Some(Join(names, ", "))
    requires parse(Join(names, ", ")) == JsonError
    ensures AdaptUniversity(raw, programs, parse).languages == Some(names)
  {
    SpacedCommaList(names);
    assert Languages(raw.languages, parse) == names;
  }
}
