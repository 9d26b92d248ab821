/**
 * The contact endpoint `handler(req, res)`: a POST with a non-empty `email` and `message`, where
 * the email passes the unanchored test `/.+@.+\..+/`, is answered 200; a POST that fails either
 * check is answered 400 with the reason; any other method is answered 405 with `Allow: POST`.
 */
module Contact {
  import opened Wrappers

  /** The request fields the handler reads; `None` is a field that is absent (`undefined`). */
  datatype Request = Request(httpMethod: Option<string>, name: Option<string>, email: Option<string>, message: Option<string>)

  /** The JSON body `{ error }` or `{ success }`, or the plain text of `res.end`. */
  datatype Body = ErrorBody(error: string) | SuccessBody(success: string) | PlainBody(text: string)

  /** Status, the `Allow` header when it is set, and the body. */
  datatype Response = Response(status: nat, allow: Option<seq<string>>, body: Body)

  const REQUIRED_MESSAGE: string := "Email and message are required."
  const INVALID_EMAIL_MESSAGE: string := "Invalid email format."
  const SUCCESS_MESSAGE: string := "Message \"sent\" successfully (simulated)!"

  /** A string field is truthy when it is present and not empty. */
  predicate Truthy(field: Option<string>) {
    field.Some? && field.value != []
  }

  /** How a template literal shows `req.httpMethod`: the string itself, or `undefined`. */
  function ShowMethod(httpMethod: Option<string>): string {
    if httpMethod.Some? then httpMethod.value else "undefined"
  }

  // ----- The pattern `.+@.+\..+` -----

  /** The characters `.` does not match. */
  predicate IsLineTerminator(c: char) {
    c == '\n' || c == '\r' || c == '\U{2028}' || c == '\U{2029}'
  }

  /** No line terminator in `s[lo..hi]`. */
  predicate LineFree(s: string, lo: nat, hi: nat)
    requires lo <= hi <= |s|
  {
    forall j :: lo <= j < hi ==> !IsLineTerminator(s[j])
  }

  /**
   * `s[a..e]` is a match of `.+@.+\..+`: one or more characters, `@` at `at`, one or more
   * characters, `.` at `dot` and one or more characters, none of them a line terminator.
   */
  ghost predicate IsMatch(s: string, a: int, at: int, dot: int, e: int) {
    0 <= a < at && at + 1 < dot && dot + 1 < e <= |s| && s[at] == '@' && s[dot] == '.' && LineFree(s, a, e)
  }

  /** `/.+@.+\..+/.test(s)`: the pattern, unanchored, matches somewhere in `s`. */
  ghost predicate MatchesPattern(s: string) {
    exists a, at, dot, e :: IsMatch(s, a, at, dot, e)
  }

  /**
   * The same test put simply: an `@` with a character before it, then, after at least one more
   * character, a `.` with a character after it, all on one line.
   */
  lemma MatchesPatternIff(s: string)
    ensures MatchesPattern(s) <==>
      exists at, dot :: 0 < at && at + 1 < dot && dot + 1 < |s|
        && s[at] == '@' && s[dot] == '.' && LineFree(s, at - 1, dot + 2)
  {
    if MatchesPattern(s) {
      var a, at, dot, e :| IsMatch(s, a, at, dot, e);
      assert LineFree(s, at - 1, dot + 2);
    }
    if exists at, dot :: 0 < at && at + 1 < dot && dot + 1 < |s|
        && s[at] == '@' && s[dot] == '.' && LineFree(s, at - 1, dot + 2) {
      var at, dot :| 0 < at && at + 1 < dot && dot + 1 < |s|
        && s[at] == '@' && s[dot] == '.' && LineFree(s, at - 1, dot + 2);
      assert IsMatch(s, at - 1, at, dot, dot + 2);
    }
  }

  // ----- An automaton for the test -----

  /**
   * How far into the pattern the text read so far reaches on its current line: nothing, one or
   * more characters, then `@`, then one more character, then `.`, and the whole pattern.
   */
  datatype Progress = Nothing | Local | AtSign | Domain | Dot | Matched

  /** One character more. */
  function Step(q: Progress, c: char): Progress {
    if q == Matched then Matched
    else if IsLineTerminator(c) then Nothing
    else match q
      case Nothing => Local
      case Local => if c == '@' then AtSign else Local
      case AtSign => Domain
      case Domain => if c == '.' then Dot else Domain
      case Dot => Matched
  }

  /** The progress after reading `s`. */
  function Scan(s: string): Progress
    decreases |s|
  {
    if s == [] then Nothing else Step(Scan(s[..|s| - 1]), s[|s| - 1])
  }

  /** The executable email check. */
  predicate ValidEmailFormat(email: string) {
    Scan(email) == Matched
  }

  // What each state of the automaton means of the text `s` read so far: a stretch that ends at the
  // end of `s`, holds no line terminator, and matches a prefix of the pattern.

  /** The stretch from `a` to the end of `s` has no line terminator and an `@` at `at`, after `a`. */
  ghost predicate OpenAt(s: string, a: int, at: int) {
    0 <= a < at < |s| && s[at] == '@' && LineFree(s, a, |s|)
  }

  ghost predicate ReachesLocal(s: string) {
    |s| > 0 && !IsLineTerminator(s[|s| - 1])
  }

  ghost predicate ReachesAtSign(s: string) {
    exists a, at :: OpenAt(s, a, at) && at == |s| - 1
  }

  ghost predicate ReachesDomain(s: string) {
    exists a, at :: OpenAt(s, a, at) && at + 1 < |s|
  }

  ghost predicate ReachesDot(s: string) {
    exists a, at :: OpenAt(s, a, at) && at + 1 < |s| - 1 && s[|s| - 1] == '.'
  }

  /** The furthest state `s` reaches. */
  ghost function Furthest(s: string): Progress {
    if MatchesPattern(s) then Matched
    else if ReachesDot(s) then Dot
    else if ReachesDomain(s) then Domain
    else if ReachesAtSign(s) then AtSign
    else if ReachesLocal(s) then Local
    else Nothing
  }

  lemma LineFreeShrink(s: string, c: char, lo: nat, hi: nat)
    requires lo <= hi <= |s| && LineFree(s + [c], lo, hi)
    ensures LineFree(s, lo, hi)
  {
    forall j | lo <= j < hi ensures !IsLineTerminator(s[j]) {
      assert s[j] == (s + [c])[j];
    }
  }

  lemma LineFreeGrow(s: string, c: char, lo: nat)
    requires lo <= |s| && LineFree(s, lo, |s|) && !IsLineTerminator(c)
    ensures LineFree(s + [c], lo, |s| + 1)
  {
    var t := s + [c];
    forall j | lo <= j < |t| ensures !IsLineTerminator(t[j]) {
      if j < |s| {
        assert t[j] == s[j];
      }
    }
  }

  lemma MatchInPrefix(s: string, c: char, a: int, at: int, dot: int, e: int)
    requires IsMatch(s + [c], a, at, dot, e) && e <= |s|
    ensures IsMatch(s, a, at, dot, e)
  {
    LineFreeShrink(s, c, a, e);
    assert s[at] == (s + [c])[at] && s[dot] == (s + [c])[dot];
  }

  lemma MatchExtends(s: string, c: char, a: int, at: int, dot: int, e: int)
    requires IsMatch(s, a, at, dot, e)
    ensures IsMatch(s + [c], a, at, dot, e)
  {
    var t := s + [c];
    assert t[at] == s[at] && t[dot] == s[dot];
    assert LineFree(t, a, e) by {
      forall j | a <= j < e ensures !IsLineTerminator(t[j]) {
        assert t[j] == s[j];
      }
    }
  }

  lemma OpenShrinks(s: string, c: char, a: int, at: int)
    requires OpenAt(s + [c], a, at) && at < |s|
    ensures OpenAt(s, a, at)
  {
    LineFreeShrink(s, c, a, |s|);
    assert s[at] == (s + [c])[at];
  }

  lemma OpenExtends(s: string, c: char, a: int, at: int)
    requires OpenAt(s, a, at) && !IsLineTerminator(c)
    ensures OpenAt(s + [c], a, at)
  {
    LineFreeGrow(s, c, a);
    assert (s + [c])[at] == s[at];
  }

  /** A line terminator neither makes nor breaks a match. */
  lemma TerminatorKeepsMatch(s: string, c: char)
    requires IsLineTerminator(c)
    ensures MatchesPattern(s + [c]) == MatchesPattern(s)
  {
    var t := s + [c];
    if MatchesPattern(t) {
      var a, at, dot, e :| IsMatch(t, a, at, dot, e);
      assert e <= |s| by {
        assert !IsLineTerminator(t[e - 1]);
      }
      MatchInPrefix(s, c, a, at, dot, e);
    }
    if MatchesPattern(s) {
      var a, at, dot, e :| IsMatch(s, a, at, dot, e);
      MatchExtends(s, c, a, at, dot, e);
    }
  }

  /** After a line terminator, no part of the pattern has been read on the current line. */
  lemma TerminatorEndsProgress(s: string, c: char)
    requires IsLineTerminator(c)
    ensures !ReachesDot(s + [c]) && !ReachesDomain(s + [c]) && !ReachesAtSign(s + [c]) && !ReachesLocal(s + [c])
  {
    var t := s + [c];
    assert t[|t| - 1] == c;
    assert forall a :: 0 <= a < |t| ==> !LineFree(t, a, |t|);
  }

  /** A match of `s + [c]` is a match of `s`, or `c` completes a text that reaches `Dot`. */
  lemma MatchStep(s: string, c: char)
    requires !IsLineTerminator(c)
    ensures MatchesPattern(s + [c]) == (MatchesPattern(s) || ReachesDot(s))
  {
    var t := s + [c];
    if MatchesPattern(t) {
      var a, at, dot, e :| IsMatch(t, a, at, dot, e);
      if e <= |s| {
        MatchInPrefix(s, c, a, at, dot, e);
      } else if dot + 2 < e {
        assert IsMatch(t, a, at, dot, e - 1);
        MatchInPrefix(s, c, a, at, dot, e - 1);
      } else {
        LineFreeShrink(s, c, a, |s|);
        assert s[at] == t[at] && s[|s| - 1] == t[dot];
        assert OpenAt(s, a, at);
      }
    }
    if MatchesPattern(s) {
      var a, at, dot, e :| IsMatch(s, a, at, dot, e);
      MatchExtends(s, c, a, at, dot, e);
    }
    if ReachesDot(s) {
      var a, at :| OpenAt(s, a, at) && at + 1 < |s| - 1 && s[|s| - 1] == '.';
      LineFreeGrow(s, c, a);
      assert t[at] == s[at] && t[|s| - 1] == s[|s| - 1];
      assert IsMatch(t, a, at, |s| - 1, |t|);
    }
  }

  /** `Dot` is reached exactly by reading a `.` from `Domain`. */
  lemma DotStep(s: string, c: char)
    requires !IsLineTerminator(c)
    ensures ReachesDot(s + [c]) == (c == '.' && ReachesDomain(s))
  {
    var t := s + [c];
    assert t[|s|] == c;
    if ReachesDot(t) {
      var a, at :| OpenAt(t, a, at) && at + 1 < |t| - 1 && t[|t| - 1] == '.';
      OpenShrinks(s, c, a, at);
    }
    if c == '.' && ReachesDomain(s) {
      var a, at :| OpenAt(s, a, at) && at + 1 < |s|;
      OpenExtends(s, c, a, at);
    }
  }

  /** `Domain` is reached by one more character from `AtSign` or `Domain`. */
  lemma DomainStep(s: string, c: char)
    requires !IsLineTerminator(c)
    ensures ReachesDomain(s + [c]) == (ReachesAtSign(s) || ReachesDomain(s))
  {
    var t := s + [c];
    if ReachesDomain(t) {
      var a, at :| OpenAt(t, a, at) && at + 1 < |t|;
      OpenShrinks(s, c, a, at);
    }
    if ReachesAtSign(s) {
      var a, at :| OpenAt(s, a, at) && at == |s| - 1;
      OpenExtends(s, c, a, at);
    }
    if ReachesDomain(s) {
      var a, at :| OpenAt(s, a, at) && at + 1 < |s|;
      OpenExtends(s, c, a, at);
    }
  }

  /** `AtSign` is reached exactly by reading `@` after one or more characters of the line. */
  lemma AtSignStep(s: string, c: char)
    requires !IsLineTerminator(c)
    ensures ReachesAtSign(s + [c]) == (c == '@' && ReachesLocal(s))
  {
    var t := s + [c];
    assert t[|s|] == c;
    if ReachesAtSign(t) {
      var a, at :| OpenAt(t, a, at) && at == |t| - 1;
      assert t[|s| - 1] == s[|s| - 1];
    }
    if c == '@' && ReachesLocal(s) {
      assert t[|s| - 1] == s[|s| - 1];
      assert OpenAt(t, |s| - 1, |s|);
    }
  }

  /** Each state of the automaton is the furthest state of the text read so far. */
  lemma FurthestStep(s: string, c: char)
    ensures Furthest(s + [c]) == Step(Furthest(s), c)
  {
    var t := s + [c];
    assert t[|t| - 1] == c;
    if IsLineTerminator(c) {
      TerminatorKeepsMatch(s, c);
      TerminatorEndsProgress(s, c);
    } else {
      MatchStep(s, c);
      DotStep(s, c);
      DomainStep(s, c);
      AtSignStep(s, c);
      assert ReachesLocal(t);
      if ReachesDot(s) {
        var a, at :| OpenAt(s, a, at) && at + 1 < |s| - 1 && s[|s| - 1] == '.';
        assert OpenAt(s, a, at) && at + 1 < |s|;
      }
      if ReachesAtSign(s) || ReachesDomain(s) {
        var a, at :| OpenAt(s, a, at);
        assert !IsLineTerminator(s[|s| - 1]);
      }
    }
  }

  /** The automaton follows the furthest state. */
  lemma {:induction false} ScanFurthest(s: string)
    ensures Scan(s) == Furthest(s)
    decreases |s|
  {
    if s != [] {
      var init := s[..|s| - 1];
      ScanFurthest(init);
      assert init + [s[|s| - 1]] == s;
      FurthestStep(init, s[|s| - 1]);
    }
  }

  /** The executable check is the regular expression's test. */
  lemma ValidEmailFormatIsPattern(email: string)
    ensures ValidEmailFormat(email) <==> MatchesPattern(email)
  {
    ScanFurthest(email);
  }

  // ----- The handler -----

  function Handle(req: Request): (r: Response)
    ensures r.status == 200 || r.status == 400 || r.status == 405
    ensures r.allow.Some? <==> r.status == 405
  {
    if req.httpMethod == Some("POST") then
      if !Truthy(req.email) || !Truthy(req.message) then Response(400, None, ErrorBody(REQUIRED_MESSAGE))
      else if !ValidEmailFormat(req.email.value) then Response(400, None, ErrorBody(INVALID_EMAIL_MESSAGE))
      else Response(200, None, SuccessBody(SUCCESS_MESSAGE))
    else Response(405, Some(["POST"]), PlainBody("Method " + ShowMethod(req.httpMethod) + " Not Allowed"))
  }

  /** Any method but POST is refused with `Allow: POST`, naming the method. */
  lemma NonPostRefused(req: Request)
    ensures (Handle(req).status == 405) <==> req.httpMethod != Some("POST")
    ensures req.httpMethod != Some("POST") ==>
      Handle(req) == Response(405, Some(["POST"]), PlainBody("Method " + ShowMethod(req.httpMethod) + " Not Allowed"))
    ensures req.httpMethod == Some("POST") ==> Handle(req).allow == None
  {
  }

  /** A POST missing either field, or with either empty, is refused before the email is looked at. */
  lemma MissingFieldsRefused(req: Request)
    requires req.httpMethod == Some("POST")
    ensures (!Truthy(req.email) || !Truthy(req.message)) <==> Handle(req).body == ErrorBody(REQUIRED_MESSAGE)
    ensures !Truthy(req.email) || !Truthy(req.message) ==> Handle(req).status == 400
  {
  }

  /** With both fields present, an email with no match of the pattern is refused. */
  lemma InvalidEmailRefused(req: Request)
    requires req.httpMethod == Some("POST") && Truthy(req.email) && Truthy(req.message)
    ensures Handle(req) == Response(400, None, ErrorBody(INVALID_EMAIL_MESSAGE)) <==> !MatchesPattern(req.email.value)
  {
    ValidEmailFormatIsPattern(req.email.value);
  }

  /** The request succeeds exactly when it is a POST with both fields and an email matching the pattern. */
  lemma SuccessIff(req: Request)
    ensures Handle(req).status == 200 <==>
      req.httpMethod == Some("POST") && Truthy(req.email) && Truthy(req.message) && MatchesPattern(req.email.value)
    ensures Handle(req).status == 200 ==> Handle(req) == Response(200, None, SuccessBody(SUCCESS_MESSAGE))
  {
    if Truthy(req.email) {
      ValidEmailFormatIsPattern(req.email.value);
    }
  }

  /** The name never changes the answer. */
  lemma NameIgnored(req: Request, name: Option<string>)
    ensures Handle(req.(name := name)) == Handle(req)
  {
  }
}
