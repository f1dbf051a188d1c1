/**
 * The waitlist intake endpoint: a POST carrying a name, an email and optional
 * practice, role and interests is checked step by step (method, required
 * fields, email shape) and then inserted into a table whose email column is
 * unique. Every request ends in one of five statuses: 405, 400, 409, 500, 201.
 *
 * The database client is an abstract store; its duplicate-key error carries
 * the PostgreSQL `unique_violation` code "23505", treated as an opaque tag.
 */
module WaitlistApi {

  import opened Wrappers
  import Text

  const UniqueViolation := "23505"

  /** The parsed JSON body; a missing property is `None`. */
  datatype Body = Body(
    name: Option<string>,
    email: Option<string>,
    practice: Option<string>,
    role: Option<string>,
    interests: Option<seq<string>>)

  /** `req.body` is `None` when the request carries no body at all. */
  datatype Request = Request(httpMethod: string, body: Option<Body>)

  datatype Row = Row(
    id: nat,
    name: string,
    email: string,
    practice: Option<string>,
    role: Option<string>,
    interests: seq<string>)

  datatype Json =
    | ErrorJson(error: string)
    | JoinedJson(success: bool, message: string, id: Option<nat>)

  datatype Response = Response(status: nat, json: Json)

  /** What the insert call reports: the new row's id, a database error code, or an exception. */
  datatype InsertResult = Inserted(id: nat) | DbError(code: string) | Threw

  /** JavaScript's `\s`: the WhiteSpace and LineTerminator code points of ECMAScript. */
  predicate IsSpace(c: char) {
    c == ' ' || c == '\t' || c == '\n' || c == '\r' || c == '\U{000B}' || c == '\U{000C}'
    || c == '\U{00A0}' || c == '\U{1680}' || ('\U{2000}' <= c <= '\U{200A}')
    || c == '\U{2028}' || c == '\U{2029}' || c == '\U{202F}' || c == '\U{205F}'
    || c == '\U{3000}' || c == '\U{FEFF}'
  }

  /** A character the class `[^\s@]` accepts. */
  predicate Plain(c: char) {
    !IsSpace(c) && c != '@'
  }

  /** Every character of `s` at positions `lo` to `hi - 1` is accepted by `[^\s@]`. */
  predicate PlainRun(s: string, lo: int, hi: int)
    requires 0 <= lo <= hi <= |s|
  {
    forall k | lo <= k < hi :: Plain(s[k])
  }

  /**
   * The regular expression `^[^\s@]+@[^\s@]+\.[^\s@]+$` read literally: three
   * non-empty runs of plain characters, separated by an `@` and then a `.`.
   */
  ghost predicate MatchesEmailRegex(s: string) {
    exists i, j | 0 < i && i + 1 < j && j + 1 < |s| ::
      s[i] == '@' && s[j] == '.' && PlainRun(s, 0, i) && PlainRun(s, i + 1, j) && PlainRun(s, j + 1, |s|)
  }

  /**
   * The email check of the handler: no whitespace, exactly one `@` with
   * something before it, and after it a domain holding a `.` that is neither
   * the domain's first nor its last character.
   */
  predicate ValidEmail(s: string) {
    var at := Text.IndexOf(s, '@');
    at > 0
    && (forall k | 0 <= k < |s| :: !IsSpace(s[k]))
    && (forall k | at < k < |s| :: s[k] != '@')
    && (exists k | at + 1 < k < |s| - 1 :: s[k] == '.')
  }

  lemma ValidEmailMatchesRegex(s: string)
    requires ValidEmail(s)
    ensures MatchesEmailRegex(s)
  {
    var i := Text.IndexOf(s, '@');
    var j :| i + 1 < j < |s| - 1 && s[j] == '.';
    assert PlainRun(s, 0, i) && PlainRun(s, i + 1, j) && PlainRun(s, j + 1, |s|);
  }

  lemma RegexMatchesValidEmail(s: string)
    requires MatchesEmailRegex(s)
    ensures ValidEmail(s)
  {
    var i, j :| 0 < i && i + 1 < j && j + 1 < |s| &&
      s[i] == '@' && s[j] == '.' && PlainRun(s, 0, i) && PlainRun(s, i + 1, j) && PlainRun(s, j + 1, |s|);
    Text.IndexOfAt(s, '@', i);
    forall k | 0 <= k < |s| ensures !IsSpace(s[k]) {
      if k != i && k != j {
        assert Plain(s[k]);
      }
    }
    forall k | i < k < |s| ensures s[k] != '@' {
      if k != j {
        assert Plain(s[k]);
      }
    }
  }

  /** The handler's email check accepts exactly the strings the regular expression matches. */
  lemma EmailCheckIsRegex(s: string)
    ensures ValidEmail(s) <==> MatchesEmailRegex(s)
  {
    if ValidEmail(s) {
      ValidEmailMatchesRegex(s);
    }
    if MatchesEmailRegex(s) {
      RegexMatchesValidEmail(s);
    }
  }

  /** JavaScript truthiness of an optional string: present and non-empty. */
  predicate Truthy(s: Option<string>) {
    s.Some? && s.value != ""
  }

  /** A request that passes every check before the insert. */
  ghost predicate Admissible(req: Request) {
    req.httpMethod == "POST" && req.body.Some?
    && Truthy(req.body.value.name) && Truthy(req.body.value.email)
    && MatchesEmailRegex(req.body.value.email.value)
  }

  const MethodNotAllowed := Response(405, ErrorJson("Method not allowed"))
  const MissingFields := Response(400, ErrorJson("Name and email are required"))
  const InvalidEmail := Response(400, ErrorJson("Invalid email format"))
  const Duplicate := Response(409, ErrorJson("Email already registered for waitlist"))
  const InsertFailed := Response(500, ErrorJson("Failed to join waitlist"))
  const InternalError := Response(500, ErrorJson("Internal server error"))

  /**
   * The early returns, in the handler's order. Destructuring a missing body
   * throws, which the handler's catch turns into a 500.
   */
  function Precheck(req: Request): (early: Option<Response>)
    ensures req.httpMethod != "POST" ==> early == Some(MethodNotAllowed)
    ensures req.httpMethod == "POST" && req.body.None? ==> early == Some(InternalError)
    ensures (req.httpMethod == "POST" && req.body.Some? &&
      !(Truthy(req.body.value.name) && Truthy(req.body.value.email))) ==> early == Some(MissingFields)
    ensures (req.httpMethod == "POST" && req.body.Some? &&
      Truthy(req.body.value.name) && Truthy(req.body.value.email) &&
      !MatchesEmailRegex(req.body.value.email.value)) ==> early == Some(InvalidEmail)
    ensures early.None? <==> Admissible(req)
    ensures early.Some? ==> early.value in {MethodNotAllowed, InternalError, MissingFields, InvalidEmail}
  {
    if req.httpMethod != "POST" then Some(MethodNotAllowed)
    else if req.body.None? then Some(InternalError)
    else
      var b := req.body.value;
      if !Truthy(b.name) || !Truthy(b.email) then Some(MissingFields)
      else
        EmailCheckIsRegex(b.email.value);
        if !ValidEmail(b.email.value) then Some(InvalidEmail)
        else None
  }

  /** The response after the insert: only the duplicate-key code becomes a 409. */
  function AfterInsert(result: InsertResult): (res: Response)
    ensures res.status in {201, 409, 500}
    ensures res.status == 201 <==> result.Inserted?
    ensures res.status == 409 <==> result.DbError? && result.code == UniqueViolation
    ensures result.Inserted? ==> res.json == JoinedJson(true, "Successfully joined waitlist", Some(result.id))
  {
    match result
    case Inserted(id) => Response(201, JoinedJson(true, "Successfully joined waitlist", Some(id)))
    case DbError(code) => if code == UniqueViolation then Duplicate else InsertFailed
    case Threw => InternalError
  }

  /** The row written for an admissible body: missing interests become an empty list. */
  function NewRow(b: Body, id: nat): (row: Row)
    requires b.name.Some? && b.email.Some?
    ensures row.id == id && row.name == b.name.value && row.email == b.email.value
    ensures row.practice == b.practice && row.role == b.role
    ensures row.interests == if b.interests.Some? then b.interests.value else []
  {
    Row(id, b.name.value, b.email.value, b.practice, b.role, b.interests.GetOr([]))
  }

  lemma {:induction false} EveryStatusIsOneOfFive(req: Request, result: InsertResult)
    ensures var res := if Precheck(req).Some? then Precheck(req).value else AfterInsert(result);
      res.status in {405, 400, 409, 500, 201}
  {
    if Precheck(req).Some? {
      assert Precheck(req).value in {MethodNotAllowed, InternalError, MissingFields, InvalidEmail};
    }
  }

  /** Missing fields are reported even when the email is malformed as well. */
  lemma PresenceBeforeFormat(name: string, email: string)
    requires name == "" && !MatchesEmailRegex(email)
    ensures Precheck(Request("POST", Some(Body(Some(name), Some(email), None, None, None)))) == Some(MissingFields)
  {
  }

  /** The `waitlist` table with its unique email column. */
  class WaitlistStore {
    var rows: seq<Row>
    var nextId: nat

    ghost predicate Valid()
      reads this
    {
      (forall a, b | 0 <= a < b < |rows| :: rows[a].email != rows[b].email)
      && (forall a | 0 <= a < |rows| :: rows[a].id < nextId)
    }

    predicate Registered(email: string)
      reads this
    {
      exists a | 0 <= a < |rows| :: rows[a].email == email
    }

    constructor ()
      ensures rows == [] && Valid()
    {
      rows := [];
      nextId := 1;
    }

    /**
     * The insert. `fault` is a failure of the database connection the model
     * cannot see; absent one, a duplicate email is refused with code 23505.
     */
    method Insert(row: Row, fault: Option<InsertResult>) returns (result: InsertResult)
      requires Valid()
      requires fault.Some? ==> !fault.value.Inserted?
      modifies this
      ensures Valid()
      ensures fault.Some? ==> result == fault.value && rows == old(rows) && nextId == old(nextId)
      ensures fault.None? && old(Registered(row.email)) ==>
        result == DbError(UniqueViolation) && rows == old(rows) && nextId == old(nextId)
      ensures fault.None? && !old(Registered(row.email)) ==>
        result == Inserted(old(nextId)) && rows == old(rows) + [row.(id := old(nextId))] && nextId == old(nextId) + 1
    {
      if fault.Some? {
        return fault.value;
      }
      if Registered(row.email) {
        return DbError(UniqueViolation);
      }
      rows := rows + [row.(id := nextId)];
      result := Inserted(nextId);
      nextId := nextId + 1;
    }

    /** The endpoint. Nothing is inserted unless every check before the insert passes. */
    method Handle(req: Request, fault: Option<InsertResult>) returns (res: Response)
      requires Valid()
      requires fault.Some? ==> !fault.value.Inserted?
      modifies this
      ensures Valid()
      ensures !Admissible(req) ==> res == Precheck(req).value && rows == old(rows) && nextId == old(nextId)
      ensures Admissible(req) && fault.Some? ==>
        rows == old(rows) && nextId == old(nextId) && res == AfterInsert(fault.value)
      ensures Admissible(req) && fault.None? && old(Registered(req.body.value.email.value)) ==>
        rows == old(rows) && nextId == old(nextId) && res == Duplicate
      ensures Admissible(req) && fault.None? && !old(Registered(req.body.value.email.value)) ==>
        rows == old(rows) + [NewRow(req.body.value, old(nextId))] && nextId == old(nextId) + 1
        && res == Response(201, JoinedJson(true, "Successfully joined waitlist", Some(old(nextId))))
    {
      var early := Precheck(req);
      if early.Some? {
        return early.value;
      }
      var b := req.body.value;
      var result := Insert(NewRow(b, 0), fault);
      res := AfterInsert(result);
    }
  }
}
