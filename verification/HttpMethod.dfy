/** The method recogniser of the HTTP parser (http_parser.c): it guesses a method from the first letter
    and changes its mind at the letters where names part. */
module HttpMethod {

  datatype Method =
    | DELETE | GET | HEAD | POST | PUT | CONNECT | OPTIONS | TRACE | COPY | LOCK | MKCOL | MOVE
    | PROPFIND | PROPPATCH | SEARCH | UNLOCK | BIND | REBIND | UNBIND | ACL | REPORT | MKACTIVITY | CHECKOUT | MERGE
    | MSEARCH | NOTIFY | SUBSCRIBE | UNSUBSCRIBE | PATCH | PURGE | MKCALENDAR | LINK | UNLINK | SOURCE

  /** method_strings */
  function Name(m: Method): string {
    match m
    case DELETE => "DELETE"
    case GET => "GET"
    case HEAD => "HEAD"
    case POST => "POST"
    case PUT => "PUT"
    case CONNECT => "CONNECT"
    case OPTIONS => "OPTIONS"
    case TRACE => "TRACE"
    case COPY => "COPY"
    case LOCK => "LOCK"
    case MKCOL => "MKCOL"
    case MOVE => "MOVE"
    case PROPFIND => "PROPFIND"
    case PROPPATCH => "PROPPATCH"
    case SEARCH => "SEARCH"
    case UNLOCK => "UNLOCK"
    case BIND => "BIND"
    case REBIND => "REBIND"
    case UNBIND => "UNBIND"
    case ACL => "ACL"
    case REPORT => "REPORT"
    case MKACTIVITY => "MKACTIVITY"
    case CHECKOUT => "CHECKOUT"
    case MERGE => "MERGE"
    case MSEARCH => "M-SEARCH"
    case NOTIFY => "NOTIFY"
    case SUBSCRIBE => "SUBSCRIBE"
    case UNSUBSCRIBE => "UNSUBSCRIBE"
    case PATCH => "PATCH"
    case PURGE => "PURGE"
    case MKCALENDAR => "MKCALENDAR"
    case LINK => "LINK"
    case UNLINK => "UNLINK"
    case SOURCE => "SOURCE"
  }

  datatype State = Start | Reading(m: Method, index: nat) | Url(m: Method) | Invalid

  /** The first letter of a request. */
  function First(c: char): State {
    if c == 'A' then Reading(ACL, 1)
    else if c == 'B' then Reading(BIND, 1)
    else if c == 'C' then Reading(CONNECT, 1)
    else if c == 'D' then Reading(DELETE, 1)
    else if c == 'G' then Reading(GET, 1)
    else if c == 'H' then Reading(HEAD, 1)
    else if c == 'L' then Reading(LOCK, 1)
    else if c == 'M' then Reading(MKCOL, 1)
    else if c == 'N' then Reading(NOTIFY, 1)
    else if c == 'O' then Reading(OPTIONS, 1)
    else if c == 'P' then Reading(POST, 1)
    else if c == 'R' then Reading(REPORT, 1)
    else if c == 'S' then Reading(SUBSCRIBE, 1)
    else if c == 'T' then Reading(TRACE, 1)
    else if c == 'U' then Reading(UNLOCK, 1)
    else Invalid
  }

  /** The letters at which the recogniser changes its mind. */
  function Switch(m: Method, index: nat, c: char): State {
    match m
    case POST =>
      if index == 1 && c == 'U' then Reading(PUT, 2)
      else if index == 1 && c == 'A' then Reading(PATCH, 2)
      else if index == 1 && c == 'R' then Reading(PROPFIND, 2)
      else Invalid
    case PUT =>
      if index == 2 && c == 'R' then Reading(PURGE, 3)
      else Invalid
    case CONNECT =>
      if index == 1 && c == 'H' then Reading(CHECKOUT, 2)
      else if index == 2 && c == 'P' then Reading(COPY, 3)
      else Invalid
    case MKCOL =>
      if index == 1 && c == 'O' then Reading(MOVE, 2)
      else if index == 1 && c == 'E' then Reading(MERGE, 2)
      else if index == 1 && c == '-' then Reading(MSEARCH, 2)
      else if index == 2 && c == 'A' then Reading(MKACTIVITY, 3)
      else if index == 3 && c == 'A' then Reading(MKCALENDAR, 4)
      else Invalid
    case SUBSCRIBE =>
      if index == 1 && c == 'E' then Reading(SEARCH, 2)
      else if index == 1 && c == 'O' then Reading(SOURCE, 2)
      else Invalid
    case REPORT =>
      if index == 2 && c == 'B' then Reading(REBIND, 3)
      else Invalid
    case PROPFIND =>
      if index == 4 && c == 'P' then Reading(PROPPATCH, 5)
      else Invalid
    case LOCK =>
      if index == 1 && c == 'I' then Reading(LINK, 2)
      else Invalid
    case UNLOCK =>
      if index == 2 && c == 'S' then Reading(UNSUBSCRIBE, 3)
      else if index == 2 && c == 'B' then Reading(UNBIND, 3)
      else if index == 3 && c == 'I' then Reading(UNLINK, 4)
      else Invalid
    case _ => Invalid
  }

  /** One character of the method, s_start_req and s_req_method. */
  function Step(s: State, c: char): State {
    match s
    case Start => if c == '\r' || c == '\n' then Start else First(c)
    case Reading(m, i) =>
      if c == '\0' then Invalid
      else if c == ' ' && i == |Name(m)| then Url(m)
      else if i < |Name(m)| && c == Name(m)[i] then Reading(m, i + 1)
      else if 'A' <= c <= 'Z' || c == '-' then Switch(m, i, c)
      else Invalid
    case _ => s
  }

  function Run(s: State, t: string): State { if t == [] then s else Step(Run(s, t[..|t| - 1]), t[|t| - 1]) }

  // ---------- Where names part

  /** The method that a name is guessed from, and the index at which the two part; 0 for a first guess. */
  function Parent(m: Method): (r: (Method, nat)) {
    match m
    case PUT => (POST, 1)
    case PATCH => (POST, 1)
    case PROPFIND => (POST, 1)
    case PURGE => (PUT, 2)
    case CHECKOUT => (CONNECT, 1)
    case COPY => (CONNECT, 2)
    case MOVE => (MKCOL, 1)
    case MERGE => (MKCOL, 1)
    case MSEARCH => (MKCOL, 1)
    case MKACTIVITY => (MKCOL, 2)
    case MKCALENDAR => (MKCOL, 3)
    case SEARCH => (SUBSCRIBE, 1)
    case SOURCE => (SUBSCRIBE, 1)
    case REBIND => (REPORT, 2)
    case PROPPATCH => (PROPFIND, 4)
    case LINK => (LOCK, 1)
    case UNSUBSCRIBE => (UNLOCK, 2)
    case UNBIND => (UNLOCK, 2)
    case UNLINK => (UNLOCK, 3)
    case _ => (m, 0)
  }

  /** The names of a method and its parent part where the recogniser changes its mind. */
  predicate Parts(m: Method) {
    var (p, i) := Parent(m);
    if i == 0 then First(Name(m)[0]) == Reading(m, 1)
    else
      && Parent(p).1 < i < |Name(m)| && i <= |Name(p)| && Name(m)[..i] == Name(p)[..i] &&
        Switch(p, i, Name(m)[i]) == Reading(m, i + 1)
      && ('A' <= Name(m)[i] <= 'Z' || Name(m)[i] == '-') && !(i < |Name(p)| && Name(p)[i] == Name(m)[i])
  }

  lemma Parts0(m: Method)
    requires m in {PUT, PATCH, PROPFIND, PURGE, CHECKOUT, COPY, MOVE}
    ensures Parts(m)
  {
    match m {
      case PUT => assert Name(PUT)[..1] == "P" == Name(POST)[..1];
      case PATCH => assert Name(PATCH)[..1] == "P" == Name(POST)[..1];
      case PROPFIND => assert Name(PROPFIND)[..1] == "P" == Name(POST)[..1];
      case PURGE => assert Name(PURGE)[..2] == "PU" == Name(PUT)[..2];
      case CHECKOUT => assert Name(CHECKOUT)[..1] == "C" == Name(CONNECT)[..1];
      case COPY => assert Name(COPY)[..2] == "CO" == Name(CONNECT)[..2];
      case MOVE => assert Name(MOVE)[..1] == "M" == Name(MKCOL)[..1];
      case _ =>
    }
  }

  lemma Parts1(m: Method)
    requires m in {MERGE, MSEARCH, MKACTIVITY, MKCALENDAR, SEARCH, SOURCE}
    ensures Parts(m)
  {
    match m {
      case MERGE => assert Name(MERGE)[..1] == "M" == Name(MKCOL)[..1];
      case MSEARCH => assert Name(MSEARCH)[..1] == "M" == Name(MKCOL)[..1];
      case MKACTIVITY => assert Name(MKACTIVITY)[..2] == "MK" == Name(MKCOL)[..2];
      case MKCALENDAR => assert Name(MKCALENDAR)[..3] == "MKC" == Name(MKCOL)[..3];
      case SEARCH => assert Name(SEARCH)[..1] == "S" == Name(SUBSCRIBE)[..1];
      case SOURCE => assert Name(SOURCE)[..1] == "S" == Name(SUBSCRIBE)[..1];
      case _ =>
    }
  }

  lemma Parts2(m: Method)
    requires m in {REBIND, PROPPATCH, LINK, UNSUBSCRIBE, UNBIND, UNLINK}
    ensures Parts(m)
  {
    match m {
      case REBIND => assert Name(REBIND)[..2] == "RE" == Name(REPORT)[..2];
      case PROPPATCH => assert Name(PROPPATCH)[..4] == "PROP" == Name(PROPFIND)[..4];
      case LINK => assert Name(LINK)[..1] == "L" == Name(LOCK)[..1];
      case UNSUBSCRIBE => assert Name(UNSUBSCRIBE)[..2] == "UN" == Name(UNLOCK)[..2];
      case UNBIND => assert Name(UNBIND)[..2] == "UN" == Name(UNLOCK)[..2];
      case UNLINK => assert Name(UNLINK)[..3] == "UNL" == Name(UNLOCK)[..3];
      case _ =>
    }
  }

  lemma ParentParts(m: Method)
    ensures Parts(m)
  {
    match m {
      case PUT | PATCH | PROPFIND | PURGE | CHECKOUT | COPY | MOVE => Parts0(m);
      case MERGE | MSEARCH | MKACTIVITY | MKCALENDAR | SEARCH | SOURCE => Parts1(m);
      case REBIND | PROPPATCH | LINK | UNSUBSCRIBE | UNBIND | UNLINK => Parts2(m);
      case _ =>
    }
  }

  // ---------- What has been read is the beginning of the name

  lemma SwitchParent(m: Method, i: nat, c: char)
    requires Switch(m, i, c).Reading?
    ensures var r := Switch(m, i, c); r.index == i + 1 && Parent(r.m) == (m, i) && i < |Name(r.m)| && Name(r.m)[i] == c
  {}

  lemma SwitchKeeps(m: Method, i: nat, m': Method)
    requires Parent(m') == (m, i) && i > 0
    ensures i < |Name(m')| && i <= |Name(m)| && Name(m')[..i] == Name(m)[..i]
  {
    ParentParts(m');
  }

  lemma FirstKeeps(c: char)
    requires First(c) != Invalid
    ensures First(c).Reading? && First(c).index == 1 && Name(First(c).m)[..1] == [c]
  {}

  /** No line end before the method. */
  predicate Begins(t: string) { t != [] && t[0] != '\r' && t[0] != '\n' }

  /** What has been read of a method is the beginning of the name of the guess. */
  ghost predicate Consistent(s: State, t: string) {
    match s
    case Reading(m, i) => i == |t| <= |Name(m)| && Name(m)[..i] == t
    case Url(m) => Name(m) + " " <= t
    case Invalid => true
    case Start => false
  }

  lemma Extends(name: string, t: string, c: char)
    requires |t| < |name| && name[..|t|] == t && name[|t|] == c
    ensures name[..|t| + 1] == t + [c]
  {}

  lemma SwitchConsistent(m: Method, t: string, c: char)
    requires |t| <= |Name(m)| && Name(m)[..|t|] == t && Switch(m, |t|, c).Reading?
    ensures Consistent(Switch(m, |t|, c), t + [c])
  {
    var m' := Switch(m, |t|, c).m;
    SwitchParent(m, |t|, c);
    SwitchKeeps(m, |t|, m');
    Extends(Name(m'), t, c);
  }

  lemma SpaceConsistent(m: Method, t: string)
    requires |t| == |Name(m)| && Name(m)[..|t|] == t
    ensures Consistent(Url(m), t + " ")
  {
    var name := Name(m);
    assert name[..|t|] == name;
  }

  lemma StepConsistent(m: Method, t: string, c: char)
    requires |t| <= |Name(m)| && Name(m)[..|t|] == t
    ensures Consistent(Step(Reading(m, |t|), c), t + [c])
  {
    var s' := Step(Reading(m, |t|), c);
    if c == ' ' && |t| == |Name(m)| {
      SpaceConsistent(m, t);
    } else if |t| < |Name(m)| && c == Name(m)[|t|] {
      Extends(Name(m), t, c);
    } else if s'.Reading? {
      SwitchConsistent(m, t, c);
    }
  }

  lemma {:induction false} ReadIsPrefix(t: string)
    requires Begins(t)
    ensures Consistent(Run(Start, t), t)
    decreases |t|
  {
    var front, c := t[..|t| - 1], t[|t| - 1];
    assert t == front + [c];
    if front == [] {
      assert Run(Start, front) == Start;
      if First(c) != Invalid { FirstKeeps(c); assert t == [c]; }
    } else {
      ReadIsPrefix(front);
      var s := Run(Start, front);
      if s.Reading? {
        StepConsistent(s.m, front, c);
      } else if s.Url? {
        assert Name(s.m) + " " <= front <= t;
      }
    }
  }

  // ---------- Every name is reached

  lemma NoSpaces(m: Method)
    ensures 0 < |Name(m)| && '\0' !in Name(m) && ' ' !in Name(m) && Begins(Name(m))
  {
    LettersOnly(m);
    assert Name(m)[0] in Name(m);
  }

  lemma LettersOnly(m: Method)
    ensures 0 < |Name(m)| && forall c :: c in Name(m) ==> '-' <= c <= 'Z'
  {}

  /** The guess while the name of `m` is being read. */
  function Guess(m: Method, i: nat): Method
    decreases Parent(m).1
  {
    ParentParts(m);
    if 0 < i <= Parent(m).1 then Guess(Parent(m).0, i) else m
  }

  lemma {:induction false} GuessStep(m: Method, i: nat)
    requires 0 < i < |Name(m)|
    ensures Step(Reading(Guess(m, i), i), Name(m)[i]) == Reading(Guess(m, i + 1), i + 1)
    decreases Parent(m).1
  {
    ParentParts(m);
    NoSpaces(m);
    var (p, k) := Parent(m);
    assert Name(m)[i] in Name(m);
    if i < k {
      assert Name(m)[..k][i] == Name(p)[..k][i];
      GuessStep(p, i);
    } else if i == k {
      ParentParts(p);
    }
  }

  lemma {:induction false} Reaches(m: Method, i: nat)
    requires 0 < i <= |Name(m)|
    ensures Run(Start, Name(m)[..i]) == Reading(Guess(m, i), i)
    decreases i
  {
    var t := Name(m)[..i];
    NoSpaces(m);
    if i == 1 {
      assert t == [Name(m)[0]] && t[..0] == [];
      FirstGuess(m);
    } else {
      assert t[..i - 1] == Name(m)[..i - 1] && t[i - 1] == Name(m)[i - 1];
      Reaches(m, i - 1);
      GuessStep(m, i - 1);
    }
  }

  lemma {:induction false} FirstGuess(m: Method)
    ensures First(Name(m)[0]) == Reading(Guess(m, 1), 1)
    decreases Parent(m).1
  {
    ParentParts(m);
    var (p, k) := Parent(m);
    if k > 0 {
      assert Name(m)[..k][0] == Name(p)[..k][0];
      FirstGuess(p);
    }
  }

  lemma SameWord(t: string, n: string)
    requires ' ' !in t && n + " " <= t + " "
    ensures t == n
  {
    var k := |n|;
    assert (t + " ")[k] == (n + " ")[k] == ' ';
    assert (t + " ")[..k] == (n + " ")[..k] == n;
  }

  lemma UrlAfterName(m: Method)
    ensures Run(Start, Name(m) + " ") == Url(m)
  {
    var t := Name(m);
    NoSpaces(m);
    assert (t + " ")[..|t|] == t == t[..|t|];
    Reaches(m, |t|);
    ParentParts(m);
  }

  /** The recogniser is at the URL with method `m` after exactly the name of `m` and a space. */
  lemma RecognisesExactly(t: string, m: Method)
    requires Begins(t) && ' ' !in t
    ensures Run(Start, t + " ") == Url(m) <==> t == Name(m)
  {
    UrlAfterName(m);
    ReadIsPrefix(t + " ");
    if Run(Start, t + " ") == Url(m) { SameWord(t, Name(m)); }
  }
}
