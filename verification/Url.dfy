/**
 The URL parser and its printers: the text in front of the first `#`, `?`, `/` and `:` is cut
 off step by step, and printing the parts must give back a link that parses to them.
 */
module Url {
  import opened Wrappers

  const SCHEME := "http://"
  const INT_MAX := 0x7FFF_FFFF
  const INT_MIN := -0x8000_0000

  /** Position of the first occurrence of a character, the length if there is none. */
  function IndexOf(s: string, c: char): (r: nat)
    ensures r <= |s| && c !in s[..r]
    ensures r < |s| ==> s[r] == c
  {
    if s == [] || s[0] == c then 0 else
      assert s[..1 + IndexOf(s[1..], c)] == [s[0]] + s[1..][..IndexOf(s[1..], c)];
      1 + IndexOf(s[1..], c)
  }

  lemma {:induction false} IndexOfUnique(s: string, c: char, t: string)
    requires c !in s
    ensures IndexOf(s + [c] + t, c) == |s|
    ensures IndexOf(s, c) == |s|
  {
    if s != [] {
      assert (s + [c] + t)[1..] == s[1..] + [c] + t;
      IndexOfUnique(s[1..], c, t);
    }
  }

  // ----- numbers

  function Digit(d: nat): char
    requires d < 10
  {
    '0' + d as char
  }

  predicate IsDigit(c: char) {
    '0' <= c <= '9'
  }

  function Digits(n: nat): string {
    if n < 10 then [Digit(n)] else Digits(n / 10) + [Digit(n % 10)]
  }

  /** to_string. */
  function ToText(n: int): string {
    if n < 0 then "-" + Digits(-n) else Digits(n)
  }

  /** The number a run of digits stands for, continuing from `acc`. */
  function DigitRun(s: string, acc: nat): nat {
    if s == [] || !IsDigit(s[0]) then acc else DigitRun(s[1..], 10 * acc + (s[0] - '0') as nat)
  }

  predicate IsSpace(c: char) {
    c == ' ' || '\t' <= c <= '\r'
  }

  function Clamp(n: int): int {
    Max(INT_MIN, Min(INT_MAX, n))
  }

  /** atoi: white space, a sign, digits up to the first other character, and the nearest int. */
  function Atoi(s: string): (n: int)
    ensures INT_MIN <= n <= INT_MAX
  {
    if s == [] then 0
    else if IsSpace(s[0]) then Atoi(s[1..])
    else if s[0] == '-' then Clamp(0 - DigitRun(s[1..], 0))
    else if s[0] == '+' then Clamp(DigitRun(s[1..], 0))
    else Clamp(DigitRun(s, 0))
  }

  lemma {:induction false} DigitRunAppend(s: string, d: nat, acc: nat)
    requires d < 10 && forall c :: c in s ==> IsDigit(c)
    ensures DigitRun(s + [Digit(d)], acc) == 10 * DigitRun(s, acc) + d
  {
    if s != [] {
      assert s[0] in s;
      assert (s + [Digit(d)])[1..] == s[1..] + [Digit(d)];
      DigitRunAppend(s[1..], d, 10 * acc + (s[0] - '0') as nat);
    } else {
      assert [Digit(d)][1..] == [];
    }
  }

  lemma {:induction false} DigitsRead(n: nat)
    ensures Digits(n) != [] && (forall c :: c in Digits(n) ==> IsDigit(c))
    ensures DigitRun(Digits(n), 0) == n
  {
    if n < 10 {
      assert [Digit(n)][1..] == [];
    } else {
      DigitsRead(n / 10);
      DigitRunAppend(Digits(n / 10), n % 10, 0);
    }
  }

  /** Reading a printed number gives it back, over the whole range of int. */
  lemma NumberRoundTrip(n: int)
    requires INT_MIN <= n <= INT_MAX
    ensures Atoi(ToText(n)) == n
    ensures ToText(n) != "" && forall c :: c in ToText(n) ==> IsDigit(c) || c == '-'
  {
    if n < 0 {
      DigitsRead(-n);
      assert ToText(n)[1..] == Digits(-n);
    } else {
      DigitsRead(n);
      assert IsDigit(Digits(n)[0]);
    }
  }

  // ----- what a link is made of

  /** The pieces of a link behind its scheme, each without the mark in front of it; None where
      the mark is missing. */
  datatype Pieces = Pieces(host: string, port: Option<string>, path: Option<string>,
                           query: Option<string>, fragment: Option<string>)

  function Marked(mark: char, text: Option<string>): string {
    match text
    case None => []
    case Some(t) => [mark] + t
  }

  function Authority(x: Pieces): string {
    x.host + Marked(':', x.port)
  }

  function Resource(x: Pieces): string {
    Authority(x) + Marked('/', x.path)
  }

  function Text(x: Pieces): string {
    Resource(x) + Marked('?', x.query) + Marked('#', x.fragment)
  }

  predicate Lacks(s: string, mark: char) {
    mark !in s
  }

  /** The grammar: no piece holds a mark that would end it. */
  predicate WellFormed(x: Pieces) {
    && Lacks(x.host, ':')
    && Lacks(Authority(x), '/')
    && Lacks(Resource(x), '?')
    && Lacks(Resource(x) + Marked('?', x.query), '#')
  }

  /** The text in front of the first mark, and the text behind it. */
  function Split(s: string, mark: char): (r: (string, Option<string>))
    ensures s == r.0 + Marked(mark, r.1)
    ensures Lacks(r.0, mark)
  {
    var i := IndexOf(s, mark);
    (s[..i], if i < |s| then Some(s[i + 1..]) else None)
  }

  lemma SplitUnique(front: string, mark: char, rest: Option<string>)
    requires Lacks(front, mark)
    ensures Split(front + Marked(mark, rest), mark) == (front, rest)
  {
    match rest {
      case None => IndexOfUnique(front, mark, []);
        assert front + [] == front;
      case Some(t) => IndexOfUnique(front, mark, t);
        assert front + ([mark] + t) == front + [mark] + t;
    }
  }

  /** The pieces in the order in which they are cut off the end. */
  function Cut(s: string): Pieces {
    var behind := Split(s, '#');
    var asked := Split(behind.0, '?');
    var under := Split(asked.0, '/');
    var at := Split(under.0, ':');
    Pieces(at.0, at.1, under.1, asked.1, behind.1)
  }

  /** Cutting is the grammar: the pieces fit it and make up the link, and no other pieces do. */
  lemma CutParses(s: string, x: Pieces)
    ensures WellFormed(x) && Text(x) == s <==> x == Cut(s)
  {
    if WellFormed(x) && Text(x) == s {
      SplitUnique(Resource(x) + Marked('?', x.query), '#', x.fragment);
      SplitUnique(Resource(x), '?', x.query);
      SplitUnique(Authority(x), '/', x.path);
      SplitUnique(x.host, ':', x.port);
    }
  }

  // ----- the parser

  /** The fields a parse sets. */
  datatype Parts = Parts(port: int, host: string, path: string, query: string, fragment: string,
                         wholeLink: string)

  /** A C string ends at its first NUL. */
  function CText(s: string): string {
    s[..IndexOf(s, '\0')]
  }

  function OrElse(text: Option<string>, before: string): string {
    match text
    case None => before
    case Some(t) => t
  }

  /** A port text that is empty in front of its first NUL; a NUL in the host hides this from
      the test. */
  predicate NoPortText(host: string, port: string) {
    Lacks(host, '\0') && CText(port) == []
  }

  predicate HasScheme(link: string)
    ensures HasScheme(link) ==> |link| >= 7
  {
    link[..Min(7, |link|)] == SCHEME
  }

  /** What path, query and fragment become; the latter two keep what they held when the link
      has none. */
  function Located(was: Parts, x: Pieces): Parts {
    was.(path := ['/'] + OrElse(x.path, []),
         query := OrElse(x.query, was.query), fragment := OrElse(x.fragment, was.fragment))
  }

  /** Host and port; a refused port is stored and leaves the host as it was. */
  function Addressed(was: Parts, host: string, port: Option<string>): (r: (bool, Parts))
    ensures r.0 ==> r.1.host == host && 0 < r.1.port <= INT_MAX
    ensures !r.0 ==> r.1.host == was.host && r.1.port <= 0
    ensures r.1.path == was.path && r.1.query == was.query && r.1.fragment == was.fragment
  {
    if port.None? || NoPortText(host, port.value) then (true, was.(port := 80, host := host))
    else if Atoi(port.value) <= 0 then (false, was.(port := Atoi(port.value)))
    else (true, was.(port := Atoi(port.value), host := host))
  }

  /** Whether a link is accepted and the fields afterwards. */
  function Parsed(was: Parts, link: string): (bool, Parts) {
    if !HasScheme(link) then (false, was.(wholeLink := CText(link)))
    else
      var x := Cut(link[7..]);
      Addressed(Located(was.(wholeLink := CText(link)), x), x.host, x.port)
  }

  lemma LocatedBy(was: Parts, x: Pieces, now: Parts)
    requires now.wholeLink == was.wholeLink && now.port == was.port && now.host == was.host
    requires now.path == ['/'] + OrElse(x.path, [])
    requires now.query == OrElse(x.query, was.query) && now.fragment == OrElse(x.fragment, was.fragment)
    ensures now == Located(was, x)
  {
  }

  lemma StrLenOfAuthority(host: string, port: string)
    ensures |host| == |CText(host + [':'] + port)| - 1 <==> NoPortText(host, port)
  {
    var whole := host + [':'] + port;
    if Lacks(host, '\0') {
      var i := IndexOf(port, '\0');
      assert whole[..|host| + 1 + i] == host + [':'] + port[..i];
      if i < |port| {
        IndexOfUnique(host + [':'] + port[..i], '\0', port[i + 1..]);
        assert whole == host + [':'] + port[..i] + ['\0'] + port[i + 1..];
      } else {
        IndexOfUnique(whole, '\0', []);
      }
    } else {
      var i := IndexOf(host, '\0');
      IndexOfUnique(host[..i], '\0', host[i + 1..] + [':'] + port);
      assert whole == host[..i] + ['\0'] + (host[i + 1..] + [':'] + port);
    }
  }

  class ParsedHtml {
    var port: int
    var host: string
    var path: string
    var query: string
    var fragment: string
    var wholeLink: string

    function Fields(): Parts
      reads this
    {
      Parts(port, host, path, query, fragment, wholeLink)
    }

    /** resetParser: assigning the character NUL leaves a string of that one character. */
    constructor ()
      ensures Fields() == Parts(80, "\0", "\0", "\0", "\0", "\0")
    {
      port, host, path, query, fragment, wholeLink := 80, "\0", "\0", "\0", "\0", "\0";
    }

    method ParseString(link: string) returns (ok: bool)
      modifies this
      ensures (ok, Fields()) == Parsed(old(Fields()), link)
    {
      wholeLink := CText(link);
      if !HasScheme(link) {
        return false;
      }
      var hostStart := CutOff(link[7..]);
      ok := ParseAuthority(hostStart);
    }

    /** The middle part of parseString: fragment, query and path are cut off the end. */
    method CutOff(link: string) returns (hostStart: string)
      modifies this`path, this`query, this`fragment
      ensures hostStart == Authority(Cut(link))
      ensures Fields() == Located(old(Fields()), Cut(link))
    {
      hostStart := link;
      ghost var behind := Split(hostStart, '#');
      var fragmentIndex := IndexOf(hostStart, '#');
      if fragmentIndex < |hostStart| {
        fragment := hostStart[fragmentIndex + 1..];
        hostStart := hostStart[..fragmentIndex];
      }
      assert hostStart == behind.0 && fragment == OrElse(behind.1, old(fragment));
      ghost var asked := Split(hostStart, '?');
      var queryIndex := IndexOf(hostStart, '?');
      if queryIndex < |hostStart| {
        query := hostStart[queryIndex + 1..];
        hostStart := hostStart[..queryIndex];
      }
      assert hostStart == asked.0 && query == OrElse(asked.1, old(query));
      ghost var under := Split(hostStart, '/');
      var pathIndex := IndexOf(hostStart, '/');
      if pathIndex < |hostStart| {
        path := hostStart[pathIndex..];
        assert path == ['/'] + under.1.value;
        hostStart := hostStart[..pathIndex];
      } else {
        path := "/";
      }
      assert hostStart == under.0;
      LocatedBy(old(Fields()), Cut(link), Fields());
    }

    /** The last part of parseString, from the host and the port. */
    method ParseAuthority(hostStart: string) returns (ok: bool)
      modifies this`port, this`host
      ensures var at := Split(hostStart, ':'); (ok, Fields()) == Addressed(old(Fields()), at.0, at.1)
    {
      var portIndex := IndexOf(hostStart, ':');
      if portIndex < |hostStart| {
        StrLenOfAuthority(hostStart[..portIndex], hostStart[portIndex + 1..]);
        assert hostStart == hostStart[..portIndex] + [':'] + hostStart[portIndex + 1..];
        if portIndex == |CText(hostStart)| - 1 {
          port := 80;
        } else {
          port := Atoi(hostStart[portIndex + 1..]);
          if port <= 0 {
            return false;
          }
        }
        host := hostStart[..portIndex];
      } else {
        port := 80;
        host := hostStart;
        assert host == hostStart[..portIndex];
      }
      return true;
    }

    function PrintHost(): string
      reads this
    {
      SCHEME + host
    }

    function PrintPort(): string
      reads this
    {
      [':'] + ToText(port)
    }

    function PrintPath(): string
      reads this
    {
      path
    }

    function PrintQuery(): string
      reads this
    {
      ['?'] + query
    }

    function PrintFragment(): string
      reads this
    {
      ['#'] + fragment
    }
  }

  // ----- the round trip

  /** The five printed parts in a row. */
  function Printed(p: Parts): string {
    SCHEME + (p.host + ([':'] + ToText(p.port)) + p.path + (['?'] + p.query) + (['#'] + p.fragment))
  }

  lemma PrintersPrint(page: ParsedHtml)
    ensures page.PrintHost() + page.PrintPort() + page.PrintPath() + page.PrintQuery() + page.PrintFragment()
         == Printed(page.Fields())
  {
  }

  /** What the printed link can carry. */
  predicate Printable(p: Parts) {
    && p.port > 0
    && Lacks(p.host, ':') && Lacks(p.host, '/') && Lacks(p.host, '?') && Lacks(p.host, '#')
    && p.path != [] && p.path[0] == '/' && Lacks(p.path, '?') && Lacks(p.path, '#')
    && Lacks(p.query, '#')
  }

  predicate SameParts(p: Parts, q: Parts) {
    p.port == q.port && p.host == q.host && p.path == q.path && p.query == q.query && p.fragment == q.fragment
  }

  function PiecesOf(p: Parts): Pieces
    requires p.path != []
  {
    Pieces(p.host, Some(ToText(p.port)), Some(p.path[1..]), Some(p.query), Some(p.fragment))
  }

  lemma LacksBoth(a: string, b: string, mark: char)
    ensures Lacks(a + b, mark) <==> Lacks(a, mark) && Lacks(b, mark)
  {
    assert forall k :: 0 <= k < |a| ==> (a + b)[k] == a[k];
    assert forall k :: 0 <= k < |b| ==> (a + b)[|a| + k] == b[k];
  }

  /** A piece of text behind a mark brings in that mark and what the text holds. */
  lemma LacksMarked(a: string, mark: char, text: string, other: char)
    requires Lacks(a, other) && mark != other && Lacks(text, other)
    ensures Lacks(a + Marked(mark, Some(text)), other)
  {
    LacksBoth([mark], text, other);
    LacksBoth(a, [mark] + text, other);
  }

  lemma PrintableWellFormed(p: Parts)
    requires INT_MIN <= p.port <= INT_MAX && Printable(p)
    ensures WellFormed(PiecesOf(p))
  {
    NumberRoundTrip(p.port);
    var x, port := PiecesOf(p), ToText(p.port);
    LacksMarked(p.host, ':', port, '/');
    LacksMarked(p.host, ':', port, '?');
    LacksMarked(p.host, ':', port, '#');
    LacksMarked(Authority(x), '/', p.path[1..], '?');
    LacksMarked(Authority(x), '/', p.path[1..], '#');
    LacksMarked(Resource(x), '?', p.query, '#');
  }

  lemma PrintedText(p: Parts)
    requires p.path != [] && p.path[0] == '/'
    ensures HasScheme(Printed(p)) && Printed(p)[7..] == Text(PiecesOf(p))
  {
    assert p.path == ['/'] + p.path[1..];
  }

  lemma GivesBack(was: Parts, p: Parts)
    requires INT_MIN <= p.port <= INT_MAX && Printable(p)
    ensures Parsed(was, Printed(p)).0 && SameParts(Parsed(was, Printed(p)).1, p)
  {
    NumberRoundTrip(p.port);
    PrintableWellFormed(p);
    PrintedText(p);
    CutParses(Printed(p)[7..], PiecesOf(p));
    assert p.path == ['/'] + p.path[1..];
  }

  /** If a piece behind a mark is the printed one then so is what is in front of it. */
  lemma Cancel(front: string, rest: Option<string>, a: string, mark: char, b: string)
    requires Lacks(front, mark)
    requires front + Marked(mark, rest) == a + ([mark] + b)
    requires rest.Some? ==> rest.value == b
    ensures rest == Some(b) && front == a
  {
    var s := a + ([mark] + b);
    assert s[|a|] == mark;
    if rest.Some? {
      assert s[..|front|] == front && s[..|a|] == a;
    }
  }

  lemma GivenBackPieces(y: Pieces, p: Parts)
    requires WellFormed(y) && Text(y) == Printed(p)[7..]
    requires p.path == ['/'] + OrElse(y.path, [])
    requires p.query == OrElse(y.query, p.query) && p.fragment == OrElse(y.fragment, p.fragment)
    ensures p.path != [] && Authority(y) == p.host + ([':'] + ToText(p.port))
    ensures y.path == Some(p.path[1..]) && y.query == Some(p.query) && y.fragment == Some(p.fragment)
  {
    var authority := p.host + ([':'] + ToText(p.port));
    var v := OrElse(y.path, []);
    Cancel(Resource(y) + Marked('?', y.query), y.fragment, authority + p.path + (['?'] + p.query), '#', p.fragment);
    Cancel(Resource(y), y.query, authority + p.path, '?', p.query);
    Cancel(Authority(y), y.path, authority, '/', v);
  }

  /** Parts with a mark in a wrong place, a path that does not begin with `/` or a port below
      1 do not come back, whatever the fields held before. */
  lemma GivenBackIsPrintable(was: Parts, p: Parts)
    requires INT_MIN <= p.port <= INT_MAX
    requires Parsed(was, Printed(p)).0 && SameParts(Parsed(was, Printed(p)).1, p)
    ensures Printable(p)
  {
    var y := Cut(Printed(p)[7..]);
    CutParses(Printed(p)[7..], y);
    AcceptedFields(was, Printed(p));
    GivenBackPieces(y, p);
    NumberRoundTrip(p.port);
    PrintableMarks(y, p);
  }

  /** The fields of an accepted link. */
  lemma AcceptedFields(was: Parts, link: string)
    requires Parsed(was, link).0
    ensures |link| >= 7
    ensures var now, x := Parsed(was, link).1, Cut(link[7..]);
            && 0 < now.port <= INT_MAX
            && now.host == x.host
            && now.path == ['/'] + OrElse(x.path, [])
            && now.query == OrElse(x.query, was.query)
            && now.fragment == OrElse(x.fragment, was.fragment)
  {
  }

  lemma PrintableMarks(y: Pieces, p: Parts)
    requires WellFormed(y) && y.host == p.host && p.path != [] && p.path[0] == '/'
    requires y.path == Some(p.path[1..]) && y.query == Some(p.query)
    requires p.port > 0
    ensures Printable(p)
  {
  }

  /** Parsing the five printed parts gives them back exactly when they are printable. */
  lemma UrlRoundTrip(was: Parts, p: Parts)
    requires INT_MIN <= p.port <= INT_MAX
    ensures Parsed(was, Printed(p)).0 && SameParts(Parsed(was, Printed(p)).1, p) <==> Printable(p)
  {
    if Printable(p) {
      GivesBack(was, p);
    } else if Parsed(was, Printed(p)).0 && SameParts(Parsed(was, Printed(p)).1, p) {
      GivenBackIsPrintable(was, p);
    }
  }

  lemma AcceptedMarks(x: Pieces, p: Parts)
    requires WellFormed(x) && p.host == x.host && p.path == ['/'] + OrElse(x.path, [])
    requires p.query == OrElse(x.query, p.query) && (x.query.None? ==> Lacks(p.query, '#')) && p.port > 0
    ensures Printable(p)
  {
  }

  /** Whatever link was accepted, its parts are printable if the query held no `#` before; so
      parsing what they print gives the same parts, whatever the fields hold by then. */
  lemma AcceptedIsPrintable(was: Parts, link: string, later: Parts)
    requires Lacks(was.query, '#') && Parsed(was, link).0
    ensures var now := Parsed(was, link).1;
            && Printable(now) && now.port <= INT_MAX
            && Parsed(later, Printed(now)).0 && SameParts(Parsed(later, Printed(now)).1, now)
  {
    AcceptedFields(was, link);
    var x, now := Cut(link[7..]), Parsed(was, link).1;
    CutParses(link[7..], x);
    AcceptedMarks(x, now);
    UrlRoundTrip(later, now);
  }
}
