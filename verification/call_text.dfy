/** The follow-up query of a stored-procedure call: the connection cuts the session variables out of
    the statement's own text, from the first '@' to the first ')'. */
module CallText {
  import opened Words

  // ----- The library's string searches -----

  /** Position of the first `c` at or after `from`, or the length of `s` when there is none. */
  function IndexFrom(s: string, c: char, from: nat): (i: nat)
    requires from <= |s|
    ensures from <= i <= |s| && forall k :: from <= k < i ==> s[k] != c
    ensures i < |s| ==> s[i] == c
    decreases |s| - from
  {
    if from == |s| || s[from] == c then from else IndexFrom(s, c, from + 1)
  }

  function IndexOf(s: string, c: char): (i: nat)
    ensures i <= |s| && forall k :: 0 <= k < i ==> s[k] != c
    ensures i < |s| ==> s[i] == c
  {
    IndexFrom(s, c, 0)
  }

  predicate Has(s: string, c: char) {
    IndexOf(s, c) < |s|
  }

  /** What a zero-terminated string holds: the part before the first NUL. */
  function CString(s: string): (r: string)
    ensures |r| <= |s| && '\0' !in r
  {
    s[..IndexOf(s, '\0')]
  }

  predicate StandsAt(s: string, i: nat, t: string) {
    i + |t| <= |s| && forall k :: 0 <= k < |t| ==> t[k] == s[i + k]
  }

  predicate Contains(s: string, t: string) {
    exists i :: 0 <= i <= |s| && StandsAt(s, i, t)
  }

  lemma ContainsIsPart(s: string, t: string)
    ensures Contains(s, t) <==> exists x, y :: s == x + t + y
  {
    if Contains(s, t) {
      var i :| 0 <= i <= |s| && StandsAt(s, i, t);
      SliceIs(s, i, i + |t|, t);
      assert s == s[..i] + t + s[i + |t|..];
    }
    if exists x, y :: s == x + t + y {
      var x, y :| s == x + t + y;
      assert StandsAt(s, |x|, t);
    }
  }

  function Substr(s: string, from: nat, count: nat): string
    requires from <= |s|
  {
    if from + count <= |s| then s[from..from + count] else s[from..]
  }

  /** Conversion of a 64-bit value to int and back to an unsigned 64-bit count. */
  function ThroughInt(x: int): nat {
    var low := x % TWO_32;
    if low < TWO_31 then low else TWO_64 + low - TWO_32
  }

  /** The number of characters cut out, given the positions of '@' and ')'. */
  function CutLength(at: nat, close: nat, length: nat): nat {
    ThroughInt(if close < length then close - at else length)
  }

  /** The text queried after a call, or no query when the statement has no '@'. */
  datatype FollowUp = NoQuery | Query(text: string)

  function FollowUpOf(sql: string): FollowUp {
    var at := IndexOf(sql, '@');
    if at == |sql| then NoQuery
    else
      Query("SELECT " + Substr(sql, at, CutLength(at, IndexOf(sql, ')'), |sql|)))
  }

  // ----- The registration statement -----

  const HEAD := "call p_addAccountByMyself('"
  const MIDDLE := "' ,'"
  const TAIL := "',@accountid,@isNew);"
  const TARGET := "@accountid,@isNew"

  function RegisterSql(account: string, password: string): string {
    HEAD + (account + (MIDDLE + (password + TAIL)))
  }

  /** Position of the first '@' or NUL, or the length of `s` when there is none. */
  function FirstStop(s: string): (i: nat)
    ensures i <= |s| && forall k :: 0 <= k < i ==> s[k] != '@' && s[k] != '\0'
    ensures i < |s| ==> s[i] == '@' || s[i] == '\0'
  {
    if IndexOf(s, '@') < IndexOf(s, '\0') then IndexOf(s, '@') else IndexOf(s, '\0')
  }

  /** The list `t` stands at the first '@' or NUL and is ended there, either by a NUL or by a ')' that is
      the first one. `seen` tells whether a ')' came before `s`. */
  predicate AloneIn(s: string, t: string, seen: bool) {
    var i := FirstStop(s);
    && StandsAt(s, i, t) && i + |t| < |s|
    && (s[i + |t|] == '\0' || (s[i + |t|] == ')' && !seen && i <= IndexOf(s, ')')))
  }

  /** The first '@' or NUL of the two texts, if there is one, begins the expected variable list itself;
      if there is none, neither text has a ')'. */
  predicate Harmless(account: string, password: string) {
    if FirstStop(account) < |account| then AloneIn(account, TARGET, false)
    else if FirstStop(password) < |password| then AloneIn(password, TARGET, Has(account, ')'))
    else !Has(account, ')') && !Has(password, ')')
  }

  // ----- Which part of a statement is cut out -----

  /** What is used of the expected variable list: it begins with '@', has no ')', no quote and no NUL,
      and does not end like the statement. */
  predicate ListText(t: string) {
    && t != "" && t[0] == '@' && t[|t| - 1] != ';' && |t| < TWO_31
    && forall k :: 0 <= k < |t| ==> t[k] != ')' && t[k] != '\'' && t[k] != '\0'
  }

  /** The list `t` stands at `i` and runs to the end or to a ')' that is the first one. */
  predicate Ended(s: string, i: nat, t: string) {
    StandsAt(s, i, t) && (i + |t| == |s| || (s[i + |t|] == ')' && i <= IndexOf(s, ')')))
  }

  /** For a text of any length, the cut text is the list `t` exactly when `t` stands at the first '@' and
      the count, after its conversion to int and back, either is its length or runs to the end behind it. */
  lemma CutIsCounted(s: string, t: string)
    requires ListText(t)
    ensures var at := IndexOf(s, '@');
      var count := CutLength(at, IndexOf(s, ')'), |s|);
      FollowUpOf(s) == Query("SELECT " + t) <==>
        StandsAt(s, at, t) && (count == |t| || (count > |t| && at + |t| == |s|))
  {
    var at := IndexOf(s, '@');
    var count := CutLength(at, IndexOf(s, ')'), |s|);
    if at < |s| {
      var end := if at + count <= |s| then at + count else |s|;
      SelectIsInjective(s[at..end], t);
      SliceIs(s, at, end, t);
    }
  }

  /** For a text below 2^31 characters the count is what it was meant to be: the cut text is the list `t`
      exactly when `t` stands at the first '@' and runs to the end or to the first ')'. */
  lemma CutIsList(s: string, t: string)
    requires |s| < TWO_31 && ListText(t)
    ensures FollowUpOf(s) == Query("SELECT " + t) <==> Ended(s, IndexOf(s, '@'), t)
  {
    var at, close := IndexOf(s, '@'), IndexOf(s, ')');
    CutIsCounted(s, t);
    if at < |s| {
      CutLengthIs(at, close, |s|);
      ListHasNoMarks(s, at, t);
    }
  }

  /** What is cut out of a text below 2^31 characters: from the first '@' to the first ')', or to the end
      when there is no ')' behind that '@' or one in front of it. */
  lemma CutText(s: string)
    requires |s| < TWO_31
    ensures '@' !in s ==> FollowUpOf(s) == NoQuery
    ensures '@' in s ==>
      var at, close := IndexOf(s, '@'), IndexOf(s, ')');
      at < |s| && FollowUpOf(s) == Query("SELECT " + if at < close < |s| then s[at..close] else s[at..])
  {
    HasMeansIn(s, '@');
    if Has(s, '@') {
      CutLengthIs(IndexOf(s, '@'), IndexOf(s, ')'), |s|);
    }
  }

  /** A closed list is cut out exactly, however long the statement is. */
  lemma ClosedListIsCut(s: string, t: string)
    requires ListText(t)
    requires var at := IndexOf(s, '@'); Ended(s, at, t) && at + |t| < |s|
    ensures FollowUpOf(s) == Query("SELECT " + t)
  {
    CutIsCounted(s, t);
    ListHasNoMarks(s, IndexOf(s, '@'), t);
    assert IndexOf(s, ')') == IndexOf(s, '@') + |t|;
  }

  /** A ')' before the first '@' makes the length negative, and the cut runs to the end. */
  lemma CutLengthIs(at: nat, close: nat, length: nat)
    requires at < length < TWO_31 && close <= length
    ensures if at < close < length then CutLength(at, close, length) == close - at
            else close != at ==> CutLength(at, close, length) >= length
  {
  }

  lemma SelectIsInjective(x: string, y: string)
    ensures "SELECT " + x == "SELECT " + y <==> x == y
  {
    assert ("SELECT " + x)[7..] == x && ("SELECT " + y)[7..] == y;
  }

  lemma ListHasNoMarks(s: string, i: nat, t: string)
    requires ListText(t)
    ensures StandsAt(s, i, t) ==>
      forall k :: i <= k < i + |t| ==> s[k] != ')' && s[k] != '\'' && s[k] != '\0'
  {
    if StandsAt(s, i, t) {
      forall k | i <= k < i + |t| ensures s[k] != ')' && s[k] != '\'' && s[k] != '\0' {
        assert t[k - i] == s[i + (k - i)];
      }
    }
  }

  lemma SliceIs(s: string, i: nat, j: nat, t: string)
    requires i <= j <= |s|
    ensures s[i..j] == t <==> StandsAt(s, i, t) && j == i + |t|
  {
    if s[i..j] == t {
      assert forall k :: 0 <= k < |t| ==> t[k] == s[i..j][k] == s[i + k];
    }
    if StandsAt(s, i, t) && j == i + |t| {
      assert forall k :: 0 <= k < |t| ==> s[i..j][k] == s[i + k];
    }
  }

  // ----- From the zero-terminated text to the whole statement -----

  lemma IndexOfIs(s: string, c: char, i: nat)
    requires i <= |s| && (forall k :: 0 <= k < i ==> s[k] != c) && (i < |s| ==> s[i] == c)
    ensures IndexOf(s, c) == i
  {
  }

  lemma IndexInCString(s: string, c: char)
    ensures IndexOf(CString(s), c) == if IndexOf(s, c) < |CString(s)| then IndexOf(s, c) else |CString(s)|
  {
    var i, z := IndexOf(s, c), |CString(s)|;
    IndexOfIs(CString(s), c, if i < z then i else z);
  }

  lemma EndedMeansAlone(sql: string, t: string)
    requires sql != "" && sql[|sql| - 1] == ';' && ListText(t)
    ensures var s := CString(sql);
      Ended(s, IndexOf(s, '@'), t) <==> AloneIn(sql, t, false)
  {
    var s, i := CString(sql), FirstStop(sql);
    IndexInCString(sql, '@');
    IndexInCString(sql, ')');
    assert IndexOf(s, '@') == i;
    StandsInCString(sql, i, t);
    assert StandsAt(sql, i, t) ==> t[|t| - 1] == sql[i + (|t| - 1)];
  }

  lemma StandsInCString(s: string, i: nat, t: string)
    requires ListText(t) && i <= |CString(s)|
    ensures StandsAt(CString(s), i, t) <==> StandsAt(s, i, t)
  {
    ListHasNoMarks(s, i, t);
    assert forall k :: 0 <= k < |CString(s)| ==> CString(s)[k] == s[k];
  }

  // ----- The first stop of the registration statement -----

  lemma IndexOfConcat(x: string, y: string, c: char)
    ensures IndexOf(x + y, c) == if Has(x, c) then IndexOf(x, c) else |x| + IndexOf(y, c)
  {
    IndexOfIs(x + y, c, if Has(x, c) then IndexOf(x, c) else |x| + IndexOf(y, c));
  }

  lemma FirstStopOfConcat(x: string, y: string)
    ensures FirstStop(x + y) == if FirstStop(x) < |x| then FirstStop(x) else |x| + FirstStop(y)
  {
    IndexOfConcat(x, y, '@');
    IndexOfConcat(x, y, '\0');
  }

  lemma StandsBehind(x: string, y: string, i: nat, t: string)
    ensures StandsAt(x + y, |x| + i, t) <==> StandsAt(y, i, t)
  {
    if i + |t| <= |y| {
      forall k | 0 <= k < |t| ensures t[k] == (x + y)[|x| + i + k] <==> t[k] == y[i + k] {
      }
    }
  }

  lemma SkipPlain(x: string, y: string, t: string, seen: bool)
    requires FirstStop(x) == |x|
    ensures AloneIn(x + y, t, seen) <==> AloneIn(y, t, seen || Has(x, ')'))
  {
    var i := FirstStop(y);
    FirstStopOfConcat(x, y);
    IndexOfConcat(x, y, ')');
    StandsBehind(x, y, i, t);
    assert i + |t| < |y| ==> (x + y)[|x| + i + |t|] == y[i + |t|];
  }

  /** A list cannot run over the quote that closes a text. */
  lemma StopInText(x: string, y: string, t: string, seen: bool)
    requires FirstStop(x) < |x| && y != "" && y[0] == '\'' && ListText(t)
    ensures AloneIn(x + y, t, seen) <==> AloneIn(x, t, seen)
  {
    var i := FirstStop(x);
    FirstStopOfConcat(x, y);
    IndexOfConcat(x, y, ')');
    ListHasNoMarks(x + y, i, t);
    assert (x + y)[|x|] == '\'';
    assert i + |t| <= |x| ==> (StandsAt(x + y, i, t) <==> StandsAt(x, i, t));
  }

  lemma QuotedText(x: string, y: string, t: string, seen: bool)
    requires y != "" && y[0] == '\'' && ListText(t)
    ensures AloneIn(x + y, t, seen)
       <==> if FirstStop(x) < |x| then AloneIn(x, t, seen) else AloneIn(y, t, seen || Has(x, ')'))
  {
    if FirstStop(x) < |x| {
      StopInText(x, y, t, seen);
    } else {
      SkipPlain(x, y, t, seen);
    }
  }

  predicate Plain(s: string) {
    FirstStop(s) == |s| && !Has(s, ')')
  }

  lemma AloneInStatement(head: string, account: string, middle: string, password: string, tail: string, t: string)
    requires Plain(head) && Plain(middle) && ListText(t)
    requires middle != "" && middle[0] == '\'' && tail != "" && tail[0] == '\''
    ensures AloneIn(head + (account + (middle + (password + tail))), t, false)
       <==> if FirstStop(account) < |account| then AloneIn(account, t, false)
            else if FirstStop(password) < |password| then AloneIn(password, t, Has(account, ')'))
            else AloneIn(tail, t, Has(account, ')') || Has(password, ')'))
  {
    var rest := middle + (password + tail);
    SkipPlain(head, account + rest, t, false);
    assert rest[0] == middle[0];
    QuotedText(account, rest, t, false);
    SkipPlain(middle, password + tail, t, Has(account, ')'));
    QuotedText(password, tail, t, Has(account, ')'));
  }

  /** A list followed by a NUL or by a ')' stands alone, the latter unless a ')' came before. */
  lemma ListThenEnd(t: string, y: string, seen: bool)
    requires ListText(t) && y != ""
    ensures y[0] == '\0' ==> AloneIn(t + y, t, seen)
    ensures y[0] == ')' ==> (AloneIn(t + y, t, seen) <==> !seen)
  {
    assert (t + y)[0] == '@' && (t + y)[|t|] == y[0];
    IndexOfIs(t + y, '@', 0);
    assert forall k :: 0 <= k < |t| ==> t[k] == (t + y)[k];
  }

  lemma HasMeansIn(s: string, c: char)
    ensures Has(s, c) <==> c in s
  {
  }

  lemma TargetHasNo()
    ensures ')' !in TARGET && '\'' !in TARGET && '\0' !in TARGET
  {
  }

  lemma TargetIsList()
    ensures ListText(TARGET)
  {
    TargetHasNo();
  }

  lemma HeadHasNo()
    ensures '@' !in HEAD && ')' !in HEAD && '\0' !in HEAD
  {
  }

  lemma HeadIsPlain()
    ensures Plain(HEAD) && !Has(HEAD, '\0')
  {
    HeadHasNo();
    HasMeansIn(HEAD, '@');
    HasMeansIn(HEAD, ')');
    HasMeansIn(HEAD, '\0');
  }

  lemma MiddleIsPlain()
    ensures Plain(MIDDLE)
  {
  }

  lemma TailParts()
    ensures TAIL == "'," + (TARGET + ");")
    ensures Plain("',") && !Has(");", '\0')
  {
  }

  lemma TailHasTheList(seen: bool)
    ensures AloneIn(TAIL, TARGET, seen) <==> !seen
    ensures !Has(TAIL, '\0')
  {
    TailParts();
    TargetIsList();
    TargetHasNo();
    HasMeansIn(TARGET, '\0');
    ListThenEnd(TARGET, ");", seen);
    SkipPlain("',", TARGET + ");", TARGET, seen);
    IndexOfConcat(TARGET, ");", '\0');
    IndexOfConcat("',", TARGET + ");", '\0');
  }

  lemma FixedParts()
    ensures Plain(HEAD) && Plain(MIDDLE) && ListText(TARGET)
    ensures forall seen :: AloneIn(TAIL, TARGET, seen) <==> !seen
    ensures !Has(HEAD, '\0') && !Has(MIDDLE, '\0') && !Has(TAIL, '\0')
  {
    HeadIsPlain();
    MiddleIsPlain();
    TargetIsList();
    TailHasTheList(true);
    TailHasTheList(false);
  }

  lemma AloneMeansHarmless(account: string, password: string)
    ensures AloneIn(RegisterSql(account, password), TARGET, false) <==> Harmless(account, password)
  {
    FixedParts();
    AloneInStatement(HEAD, account, MIDDLE, password, TAIL, TARGET);
  }

  lemma RegisterSqlEnds(account: string, password: string)
    ensures var sql := RegisterSql(account, password);
      sql != "" && sql[|sql| - 1] == ';'
  {
  }

  lemma ExpectedText()
    ensures "SELECT " + TARGET == "SELECT @accountid,@isNew"
  {
  }

  /** The statement, as its parts are joined. */
  lemma StatementText(account: string, password: string)
    ensures RegisterSql(account, password)
      == "call p_addAccountByMyself('" + account + "'" + " ,'" + password + "',@accountid,@isNew);"
  {
    MiddleParts();
    JoinedParts(HEAD, account, "'", " ,'", password, TAIL);
  }

  lemma MiddleParts()
    ensures MIDDLE == "'" + " ,'"
  {
  }

  lemma JoinedParts(h: string, a: string, q: string, m: string, p: string, t: string)
    ensures h + (a + ((q + m) + (p + t))) == h + a + q + m + p + t
  {
  }

  // ----- Whether an '@' is sent -----

  /** The first '@' or NUL is an '@'. */
  predicate StopsAtAt(s: string) {
    FirstStop(s) < |s| && s[FirstStop(s)] == '@'
  }

  lemma AtInCString(s: string)
    ensures '@' in CString(s) <==> StopsAtAt(s)
  {
    IndexInCString(s, '@');
    HasMeansIn(CString(s), '@');
  }

  lemma StopOfConcat(x: string, y: string)
    ensures StopsAtAt(x + y) <==> if FirstStop(x) < |x| then StopsAtAt(x) else StopsAtAt(y)
  {
    FirstStopOfConcat(x, y);
  }

  lemma StopOfTail()
    ensures StopsAtAt(TAIL)
  {
    TailParts();
    TargetIsList();
    StopOfConcat("',", TARGET + ");");
    IndexOfIs(TARGET + ");", '@', 0);
  }

  /** The statement that is sent has an '@', and so a follow-up query, unless a NUL of one of the texts
      comes before every '@'. */
  lemma AtIsSent(account: string, password: string)
    ensures '@' in CString(RegisterSql(account, password))
       <==> if FirstStop(account) < |account| then account[FirstStop(account)] == '@'
            else FirstStop(password) < |password| ==> password[FirstStop(password)] == '@'
  {
    HeadIsPlain();
    MiddleIsPlain();
    StopOfTail();
    AtInCString(RegisterSql(account, password));
    StopOfConcat(HEAD, account + (MIDDLE + (password + TAIL)));
    StopOfConcat(account, MIDDLE + (password + TAIL));
    StopOfConcat(MIDDLE, password + TAIL);
    StopOfConcat(password, TAIL);
  }

  // ----- The text law -----

  /** The query that follows the registration call is the expected one exactly when the texts are
      harmless. */
  lemma FollowUpIsExpected(account: string, password: string)
    requires |RegisterSql(account, password)| < TWO_31
    ensures FollowUpOf(CString(RegisterSql(account, password))) == Query("SELECT @accountid,@isNew")
       <==> Harmless(account, password)
  {
    var sql := RegisterSql(account, password);
    RegisterSqlEnds(account, password);
    FixedParts();
    CutIsList(CString(sql), TARGET);
    EndedMeansAlone(sql, TARGET);
    AloneMeansHarmless(account, password);
    ExpectedText();
  }

  /** Texts of any length without '@', ')' and NUL give the expected query ... */
  lemma PlainTextsAreHarmless(account: string, password: string)
    requires Plain(account) && Plain(password)
    ensures FollowUpOf(CString(RegisterSql(account, password))) == Query("SELECT @accountid,@isNew")
  {
    var sql := RegisterSql(account, password);
    RegisterSqlEnds(account, password);
    FixedParts();
    AloneMeansHarmless(account, password);
    EndedMeansAlone(sql, TARGET);
    PlainSqlIsWhole(account, password);
    ClosedListIsCut(sql, TARGET);
    ExpectedText();
  }

  lemma PlainSqlIsWhole(account: string, password: string)
    requires Plain(account) && Plain(password)
    ensures var sql := RegisterSql(account, password);
      CString(sql) == sql
  {
    FixedParts();
    IndexOfConcat(password, TAIL, '\0');
    IndexOfConcat(MIDDLE, password + TAIL, '\0');
    IndexOfConcat(account, MIDDLE + (password + TAIL), '\0');
    IndexOfConcat(HEAD, account + (MIDDLE + (password + TAIL)), '\0');
  }

  /** ... but they are not the only ones: "@accountid,@isNew)" and ")@accountid,@isNew\0" are accepted
      accounts that have both characters and give it too ... */
  lemma SpecialAccountsWithExpectedQuery()
    ensures ExpectedThoughSpecial(TARGET + ")") && ExpectedThoughSpecial(")" + (TARGET + "\0"))
  {
    var a, b := TARGET + ")", ")" + (TARGET + "\0");
    SpecialAccounts();
    assert a[0] == '@' && a[|TARGET|] == ')' && b[0] == ')' && b[1] == '@';
    FollowUpIsExpected(a, "");
    FollowUpIsExpected(b, "");
  }

  predicate ExpectedThoughSpecial(account: string) {
    && |account| <= 20 && '@' in account && ')' in account
    && FollowUpOf(CString(RegisterSql(account, ""))) == Query("SELECT @accountid,@isNew")
  }

  lemma SpecialAccounts()
    ensures Harmless(TARGET + ")", "") && Harmless(")" + (TARGET + "\0"), "")
  {
    TargetIsList();
    HarmlessLists(TARGET);
  }

  lemma HarmlessLists(t: string)
    requires ListText(t)
    ensures FirstStop(t + ")") < |t + ")"| && AloneIn(t + ")", t, false)
    ensures var b := ")" + (t + "\0");
      FirstStop(b) < |b| && AloneIn(b, t, false)
  {
    ListThenEnd(t, ")", false);
    ListThenEnd(t, "\0", true);
    assert FirstStop(")") == 1 && Has(")", ')');
    SkipPlain(")", t + "\0", t, false);
  }

  /** ... and a NUL, which is neither '@' nor ')', makes the statement end in front of every '@'. */
  lemma NulAccountHasNoQuery()
    ensures var account := "\0";
      && |account| <= 20 && '@' !in account && ')' !in account
      && CString(RegisterSql(account, "")) == HEAD
      && FollowUpOf(CString(RegisterSql(account, ""))) == NoQuery
  {
    HeadIsPlain();
    CutBehindHead(HEAD, "\0" + (MIDDLE + ("" + TAIL)));
  }

  lemma CutBehindHead(head: string, rest: string)
    requires Plain(head) && !Has(head, '\0') && rest != "" && rest[0] == '\0'
    ensures CString(head + rest) == head && FollowUpOf(head) == NoQuery
  {
    IndexOfIs(rest, '\0', 0);
    IndexOfConcat(head, rest, '\0');
  }
}
