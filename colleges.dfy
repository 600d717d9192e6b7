/** The college routes of the back end: add, list, update, delete, search and
    count over the `colleges` table, with delete also touching `programs`.
    Each handler validates its JSON fields, opens a connection, runs its
    statements, commits, and maps the outcome to a status and a body; any
    exception becomes 500 carrying the exception's text. */
module Colleges {
  import opened Wrappers
  import opened Text
  import opened Sequences
  import opened SqlLike

  /** A row of `colleges`; `collegecode` is the primary key. */
  datatype College = College(collegecode: string, collegename: string)

  /** The columns of a `programs` row that the college routes touch;
      `collegecode` is nullable. */
  datatype Program = Program(programcode: string, programname: string, collegecode: Option<string>)

  /** The JSON body of add and update; a missing key or a JSON null is `None`. */
  datatype CollegeForm = CollegeForm(collegecode: Option<string>, collegename: Option<string>)

  datatype CollegeBody =
    | Error(error: string)
    | Registered(message: string, collegecode: string)
    | Rows(rows: seq<College>)
    | Message(message: string)
    | Count(count: int)

  const MissingFields := "Missing required fields"
  const CodeExists := "College code already exists"
  const CollegeRegistered := "College registered successfully!"
  const CollegeNotFound := "College not found"
  const CollegeUpdated := "College updated successfully"

  function DeletedMessage(code: string): string {
    "College '" + code + "' deleted successfully. Related programs now have no college."
  }

  /** The text of the primary-key violation PostgreSQL raises when an update
      would give a row a `collegecode` another row already has. */
  function DuplicateKeyError(code: string): string {
    "duplicate key value violates unique constraint on collegecode: " + code
  }

  // ---------------------------------------------------------------------
  // Connecting.  `get_db_connection` calls `psycopg2.connect(**SupabaseConfig)`,
  // and `SupabaseConfig` is a class, not a mapping.

  /** A configuration object as Python sees it: a dict of keyword arguments,
      or a class whose attributes are not keyword arguments. */
  datatype ConfigObject = Mapping(entries: map<string, string>) | PlainClass(name: string)

  const SplatTypeError := "psycopg2.connect() argument after ** must be a mapping, not type"

  /** `psycopg2.connect(**cfg)`: unpacking with `**` raises `TypeError` on a
      non-mapping before any server is contacted; with a mapping, the outcome
      is whatever the server gives. */
  function ConnectWithKeywords(cfg: ConfigObject, server: Attempt): Attempt {
    match cfg
    case PlainClass(_) => Raises(SplatTypeError)
    case Mapping(_) => server
  }

  /** The connection the college routes open, as written. */
  function CollegeConnection(server: Attempt): Attempt {
    ConnectWithKeywords(PlainClass("SupabaseConfig"), server)
  }

  /** As written, no college route ever obtains a connection. */
  lemma CollegeConnectionAlwaysRaises(server: Attempt)
    ensures CollegeConnection(server) == Raises(SplatTypeError)
  {
  }

  /** The database settings the other routes unpack (`DB_CONFIG`). */
  const DbConfig: ConfigObject :=
    Mapping(map["host" := "DATABASE_HOST", "port" := "DATABASE_PORT", "database" := "DATABASE_NAME",
                "user" := "DATABASE_USER", "password" := "DATABASE_PASSWORD"])

  /** The connection evidently intended: unpack the settings mapping. */
  function IntendedCollegeConnection(server: Attempt): Attempt {
    ConnectWithKeywords(DbConfig, server)
  }

  lemma IntendedConnectionFollowsServer(server: Attempt)
    ensures IntendedCollegeConnection(server) == server
  {
  }

  // ---------------------------------------------------------------------
  // The statements, as their effect on the tables.

  function CodeOf(c: College): string { c.collegecode }

  /** `collegecode` is the primary key of `colleges`. */
  predicate UniqueCodes(cs: seq<College>) {
    DistinctKeys(cs, CodeOf)
  }

  /** `SELECT * FROM colleges WHERE collegecode = %s` followed by `fetchone()`. */
  function FindCollege(cs: seq<College>, code: string): (r: Option<College>)
    ensures r.Some? ==> r.value in cs && r.value.collegecode == code
    ensures r.None? <==> forall c :: c in cs ==> c.collegecode != code
  {
    if cs == [] then None
    else if cs[0].collegecode == code then Some(cs[0])
    else
      assert forall c :: c in cs ==> c == cs[0] || c in cs[1..];
      FindCollege(cs[1..], code)
  }

  /** `UPDATE programs SET collegecode = NULL WHERE collegecode = %s`. */
  function DetachPrograms(ps: seq<Program>, code: string): (r: seq<Program>)
    ensures |r| == |ps|
    ensures forall i :: 0 <= i < |r| ==> r[i].collegecode != Some(code)
    ensures forall i :: 0 <= i < |r| ==>
      r[i].programcode == ps[i].programcode && r[i].programname == ps[i].programname
    ensures forall i :: 0 <= i < |r| && ps[i].collegecode != Some(code) ==> r[i] == ps[i]
  {
    seq(|ps|, i requires 0 <= i < |ps| =>
      if ps[i].collegecode == Some(code) then ps[i].(collegecode := None) else ps[i])
  }

  /** `DELETE FROM colleges WHERE collegecode = %s`. */
  function DeleteCollegeRows(cs: seq<College>, code: string): (r: seq<College>)
    ensures forall c :: c in r <==> c in cs && c.collegecode != code
    ensures IsSubsequence(r, cs)
  {
    Filter(cs, (c: College) => c.collegecode != code)
  }

  /** With unique codes, the delete removes at most one row: the one with the
      code, when there is one. */
  lemma {:induction false} DeleteRemovesAtMostOne(cs: seq<College>, code: string)
    requires UniqueCodes(cs)
    ensures |DeleteCollegeRows(cs, code)| == |cs| - (if FindCollege(cs, code).Some? then 1 else 0)
  {
    var keep := (c: College) => c.collegecode != code;
    if cs != [] {
      assert UniqueCodes(cs[1..]);
      if cs[0].collegecode == code {
        forall c | c in cs[1..] ensures keep(c) {
          var k :| 0 <= k < |cs[1..]| && cs[1..][k] == c;
          assert cs[0].collegecode != cs[k + 1].collegecode;
        }
        FilterKeepsAll(cs[1..], keep);
      } else {
        DeleteRemovesAtMostOne(cs[1..], code);
      }
    }
  }

  /** `UPDATE colleges SET collegecode = %s, collegename = %s WHERE collegecode = %s`. */
  function RenameCollege(cs: seq<College>, oldCode: string, newCode: string, newName: string): (r: seq<College>)
    ensures |r| == |cs|
    ensures forall i :: 0 <= i < |r| && cs[i].collegecode == oldCode ==> r[i] == College(newCode, newName)
    ensures forall i :: 0 <= i < |r| && cs[i].collegecode != oldCode ==> r[i] == cs[i]
  {
    seq(|cs|, i requires 0 <= i < |cs| =>
      if cs[i].collegecode == oldCode then College(newCode, newName) else cs[i])
  }

  /** The update would give the renamed row a code that another row holds. */
  predicate RenameCollides(cs: seq<College>, oldCode: string, newCode: string) {
    newCode != oldCode && FindCollege(cs, oldCode).Some? && FindCollege(cs, newCode).Some?
  }

  /** A rename that does not collide keeps the codes unique, and afterwards the
      old code is gone (unless kept) and the new row is there. */
  lemma RenameKeepsUnique(cs: seq<College>, oldCode: string, newCode: string, newName: string)
    requires UniqueCodes(cs)
    requires FindCollege(cs, oldCode).Some?
    requires !RenameCollides(cs, oldCode, newCode)
    ensures UniqueCodes(RenameCollege(cs, oldCode, newCode, newName))
    ensures College(newCode, newName) in RenameCollege(cs, oldCode, newCode, newName)
    ensures newCode != oldCode ==>
      FindCollege(RenameCollege(cs, oldCode, newCode, newName), oldCode).None?
  {
    var r := RenameCollege(cs, oldCode, newCode, newName);
    var k :| 0 <= k < |cs| && cs[k] == FindCollege(cs, oldCode).value;
    assert r[k] == College(newCode, newName);
    forall i, j | 0 <= i < j < |r| ensures r[i].collegecode != r[j].collegecode {
      if cs[i].collegecode == oldCode {
        assert cs[j].collegecode != oldCode;
        assert cs[j] in cs;
      } else if cs[j].collegecode == oldCode {
        assert cs[i] in cs;
      }
    }
  }

  /** Whether a row's code or name matches the search pattern, case-insensitively. */
  predicate MatchesKeyword(c: College, keyword: string) {
    ILike(c.collegecode, SearchPattern(keyword)) || ILike(c.collegename, SearchPattern(keyword))
  }

  /** `SELECT * FROM colleges WHERE collegecode ILIKE %s OR collegename ILIKE %s`. */
  function SearchRows(cs: seq<College>, keyword: string): (r: seq<College>)
    ensures forall c :: c in r <==> c in cs && MatchesKeyword(c, keyword)
    ensures forall c :: multiset(r)[c] == if MatchesKeyword(c, keyword) then multiset(cs)[c] else 0
    ensures IsSubsequence(r, cs)
  {
    Filter(cs, (c: College) => MatchesKeyword(c, keyword))
  }

  /** A keyword without `%`, `_` or `\` finds exactly the rows whose code or
      name contains it, ignoring case. */
  lemma SearchFindsSubstrings(cs: seq<College>, keyword: string)
    requires Plain(keyword)
    ensures forall c :: c in SearchRows(cs, keyword) <==>
      c in cs && (Contains(Lower(c.collegecode), Lower(keyword)) || Contains(Lower(c.collegename), Lower(keyword)))
  {
    forall c | c in cs
      ensures MatchesKeyword(c, keyword) <==>
        Contains(Lower(c.collegecode), Lower(keyword)) || Contains(Lower(c.collegename), Lower(keyword))
    {
      ILikeSearchIsContains(c.collegecode, keyword);
      ILikeSearchIsContains(c.collegename, keyword);
    }
  }

  /** The keyword is not escaped: "%" (and the empty keyword) find every row. */
  lemma SearchPercentFindsAll(cs: seq<College>)
    ensures SearchRows(cs, "%") == cs
    ensures SearchRows(cs, "") == cs
  {
    forall c: College ensures MatchesKeyword(c, "%") && MatchesKeyword(c, "") {
      PercentKeywordMatchesAll(Lower(c.collegecode));
      assert SearchPattern("") == "%%" && Lower("%%") == "%%";
      assert "%%"[0] == '%' && "%%"[1..] == "%";
      LikeAnything(Lower(c.collegecode));
      assert Lower(SearchPattern("%")) == SearchPattern("%");
    }
    FilterKeepsAll(cs, (c: College) => MatchesKeyword(c, "%"));
    FilterKeepsAll(cs, (c: College) => MatchesKeyword(c, ""));
  }

  /** The keyword is not escaped: "_" finds every row with a non-empty code or name. */
  lemma SearchUnderscoreFindsNonEmpty(cs: seq<College>)
    ensures forall c :: c in SearchRows(cs, "_") <==> c in cs && (c.collegecode != "" || c.collegename != "")
  {
    assert Lower(SearchPattern("_")) == SearchPattern("_");
    forall c | c in cs ensures MatchesKeyword(c, "_") <==> c.collegecode != "" || c.collegename != "" {
      UnderscoreKeywordMatchesAnyChar(Lower(c.collegecode));
      UnderscoreKeywordMatchesAnyChar(Lower(c.collegename));
    }
  }

  // ---------------------------------------------------------------------
  // The two tables and the handlers.

  class CollegeDatabase {
    var colleges: seq<College>
    var programs: seq<Program>

    ghost predicate Valid()
      reads this
    {
      UniqueCodes(colleges)
    }

    constructor (colleges0: seq<College>, programs0: seq<Program>)
      requires UniqueCodes(colleges0)
      ensures Valid() && colleges == colleges0 && programs == programs0
    {
      colleges, programs := colleges0, programs0;
    }

    /** `POST /api/add_college`. */
    method AddCollege(form: CollegeForm, conn: Attempt, db: Attempt) returns (resp: Response<CollegeBody>)
      requires Valid()
      modifies this
      ensures Valid() && programs == old(programs)
      ensures !Present(form.collegecode) || !Present(form.collegename) ==>
        resp == Response(400, Error(MissingFields)) && colleges == old(colleges)
      ensures Present(form.collegecode) && Present(form.collegename) && conn.Raises? ==>
        resp == Response(500, Error(conn.error)) && colleges == old(colleges)
      ensures Present(form.collegecode) && Present(form.collegename) && conn.Succeeds? && db.Raises? ==>
        resp == Response(500, Error(db.error)) && colleges == old(colleges)
      ensures Present(form.collegecode) && Present(form.collegename) && conn.Succeeds? && db.Succeeds? ==>
        var code, name := form.collegecode.value, form.collegename.value;
        if FindCollege(old(colleges), code).Some? then
          resp == Response(409, Error(CodeExists)) && colleges == old(colleges)
        else
          resp == Response(201, Registered(CollegeRegistered, code)) && colleges == old(colleges) + [College(code, name)]
    {
      if !Present(form.collegecode) || !Present(form.collegename) {
        return Response(400, Error(MissingFields));
      }
      var code, name := form.collegecode.value, form.collegename.value;
      if conn.Raises? {
        return Response(500, Error(conn.error));
      }
      if db.Raises? {
        return Response(500, Error(db.error));
      }
      var existing := FindCollege(colleges, code);
      if existing.Some? {
        return Response(409, Error(CodeExists));
      }
      colleges := colleges + [College(code, name)];
      resp := Response(201, Registered(CollegeRegistered, code));
    }

    /** `GET /api/college_list`. */
    method GetColleges(conn: Attempt, db: Attempt) returns (resp: Response<CollegeBody>)
      ensures conn.Raises? ==> resp == Response(500, Error(conn.error))
      ensures conn.Succeeds? && db.Raises? ==> resp == Response(500, Error(db.error))
      ensures conn.Succeeds? && db.Succeeds? ==> resp == Response(200, Rows(colleges))
    {
      if conn.Raises? {
        return Response(500, Error(conn.error));
      }
      if db.Raises? {
        return Response(500, Error(db.error));
      }
      resp := Response(200, Rows(colleges));
    }

    /** `PUT /api/colleges/<collegecode>`: a key rename with no duplicate check
        of its own; a collision is left to the primary key. */
    method UpdateCollege(pathCode: string, form: CollegeForm, conn: Attempt, db: Attempt)
      returns (resp: Response<CollegeBody>)
      requires Valid()
      modifies this
      ensures Valid() && programs == old(programs)
      ensures !Present(form.collegecode) || !Present(form.collegename) ==>
        resp == Response(400, Error(MissingFields)) && colleges == old(colleges)
      ensures Present(form.collegecode) && Present(form.collegename) && conn.Raises? ==>
        resp == Response(500, Error(conn.error)) && colleges == old(colleges)
      ensures Present(form.collegecode) && Present(form.collegename) && conn.Succeeds? && db.Raises? ==>
        resp == Response(500, Error(db.error)) && colleges == old(colleges)
      ensures Present(form.collegecode) && Present(form.collegename) && conn.Succeeds? && db.Succeeds? ==>
        var newCode, newName := form.collegecode.value, form.collegename.value;
        if FindCollege(old(colleges), pathCode).None? then
          resp == Response(404, Error(CollegeNotFound)) && colleges == old(colleges)
        else if RenameCollides(old(colleges), pathCode, newCode) then
          resp == Response(500, Error(DuplicateKeyError(newCode))) && colleges == old(colleges)
        else
          && resp == Response(200, Message(CollegeUpdated))
          && colleges == RenameCollege(old(colleges), pathCode, newCode, newName)
          && College(newCode, newName) in colleges
          && (newCode != pathCode ==> FindCollege(colleges, pathCode).None?)
    {
      if !Present(form.collegecode) || !Present(form.collegename) {
        return Response(400, Error(MissingFields));
      }
      var newCode, newName := form.collegecode.value, form.collegename.value;
      if conn.Raises? {
        return Response(500, Error(conn.error));
      }
      if db.Raises? {
        return Response(500, Error(db.error));
      }
      if RenameCollides(colleges, pathCode, newCode) {
        return Response(500, Error(DuplicateKeyError(newCode)));
      }
      var updated := FindCollege(colleges, pathCode);
      if updated.None? {
        return Response(404, Error(CollegeNotFound));
      }
      RenameKeepsUnique(colleges, pathCode, newCode, newName);
      colleges := RenameCollege(colleges, pathCode, newCode, newName);
      resp := Response(200, Message(CollegeUpdated));
    }

    /** `DELETE /api/delete_college/<collegecode>`: detach the programs, then
        delete the college, under one commit. */
    method DeleteCollege(pathCode: string, conn: Attempt, db: Attempt) returns (resp: Response<CollegeBody>)
      requires Valid()
      modifies this
      ensures Valid()
      ensures conn.Raises? ==>
        resp == Response(500, Error(conn.error)) && colleges == old(colleges) && programs == old(programs)
      ensures conn.Succeeds? && db.Raises? ==>
        resp == Response(500, Error(db.error)) && colleges == old(colleges) && programs == old(programs)
      ensures conn.Succeeds? && db.Succeeds? ==>
        && resp == Response(200, Message(DeletedMessage(pathCode)))
        && programs == DetachPrograms(old(programs), pathCode)
        && colleges == DeleteCollegeRows(old(colleges), pathCode)
        && |colleges| == |old(colleges)| - (if FindCollege(old(colleges), pathCode).Some? then 1 else 0)
    {
      if conn.Raises? {
        return Response(500, Error(conn.error));
      }
      if db.Raises? {
        return Response(500, Error(db.error));
      }
      DeleteRemovesAtMostOne(colleges, pathCode);
      programs := DetachPrograms(programs, pathCode);
      colleges := DeleteCollegeRows(colleges, pathCode);
      SubsequenceKeepsDistinct(colleges, old(colleges), CodeOf);
      resp := Response(200, Message(DeletedMessage(pathCode)));
    }

    /** `GET /api/search_college/<keyword>`. */
    method SearchCollege(keyword: string, conn: Attempt, db: Attempt) returns (resp: Response<CollegeBody>)
      ensures conn.Raises? ==> resp == Response(500, Error(conn.error))
      ensures conn.Succeeds? && db.Raises? ==> resp == Response(500, Error(db.error))
      ensures conn.Succeeds? && db.Succeeds? ==>
        && resp.status == 200 && resp.body.Rows?
        && IsSubsequence(resp.body.rows, colleges)
        && (forall c :: c in resp.body.rows <==> c in colleges && MatchesKeyword(c, keyword))
        && forall c :: multiset(resp.body.rows)[c] == if MatchesKeyword(c, keyword) then multiset(colleges)[c] else 0
    {
      if conn.Raises? {
        return Response(500, Error(conn.error));
      }
      if db.Raises? {
        return Response(500, Error(db.error));
      }
      resp := Response(200, Rows(SearchRows(colleges, keyword)));
    }

    /** `GET /api/college_count`. */
    method GetCollegeCount(conn: Attempt, db: Attempt) returns (resp: Response<CollegeBody>)
      ensures conn.Raises? ==> resp == Response(500, Error(conn.error))
      ensures conn.Succeeds? && db.Raises? ==> resp == Response(500, Error(db.error))
      ensures conn.Succeeds? && db.Succeeds? ==> resp == Response(200, Count(|colleges|))
    {
      if conn.Raises? {
        return Response(500, Error(conn.error));
      }
      if db.Raises? {
        return Response(500, Error(db.error));
      }
      resp := Response(200, Count(|colleges|));
    }
  }

  /** As written: any well-formed add reaches the connection step and fails
      there with the `TypeError` text, leaving the table as it was. */
  method AddCollegeAsWritten(store: CollegeDatabase, form: CollegeForm, server: Attempt)
    returns (resp: Response<CollegeBody>)
    requires store.Valid()
    modifies store
    ensures store.Valid()
    ensures Present(form.collegecode) && Present(form.collegename) ==>
      resp == Response(500, Error(SplatTypeError)) && store.colleges == old(store.colleges)
  {
    resp := store.AddCollege(form, CollegeConnection(server), Succeeds);
  }
}
