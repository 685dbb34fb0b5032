/**
 What a link means that leaves parts out, and which links are refused.
 */
module UrlDefaults {
  import opened Wrappers
  import opened Url

  /** A host, and what may follow host and port. */
  predicate IsHost(host: string) {
    Lacks(host, ':') && Lacks(host, '/') && Lacks(host, '?') && Lacks(host, '#')
  }

  predicate IsPortText(port: string) {
    Lacks(port, '/') && Lacks(port, '?') && Lacks(port, '#')
  }

  predicate EndsAuthority(rest: string) {
    rest == [] || rest[0] == '/' || rest[0] == '?' || rest[0] == '#'
  }

  lemma SchemeIsPrefix(link: string)
    ensures HasScheme(link) <==> "http://" <= link
  {
  }

  lemma RestPieces(rest: string)
    requires EndsAuthority(rest)
    ensures Cut(rest).host == [] && Cut(rest).port == None
  {
    var behind := Split(rest, '#');
    var asked := Split(behind.0, '?');
    var under := Split(asked.0, '/');
    assert under.0 == [];
  }

  /** Host and port in front of the rest of a link. */
  lemma WithAuthority(host: string, port: Option<string>, rest: string)
    requires IsHost(host) && (port.Some? ==> IsPortText(port.value)) && EndsAuthority(rest)
    ensures Cut(host + Marked(':', port) + rest) == Cut(rest).(host := host, port := port)
  {
    var y := Cut(rest);
    var x := y.(host := host, port := port);
    RestPieces(rest);
    CutParses(rest, y);
    AuthorityLacks(host, port);
    InFront(x, y);
    LacksBoth(Authority(x), Resource(y), '?');
    LacksBoth(Authority(x), Resource(y) + Marked('?', y.query), '#');
    CutParses(host + Marked(':', port) + rest, x);
  }

  lemma Regroup(a: string, p: string, q: string, f: string)
    ensures a + p + q == a + (p + q) && a + p + q + f == a + (p + q + f)
  {
  }

  /** An authority in front of pieces that have none. */
  lemma InFront(x: Pieces, y: Pieces)
    requires y.host == [] && y.port == None && x == y.(host := x.host, port := x.port)
    ensures Resource(x) == Authority(x) + Resource(y)
    ensures Resource(x) + Marked('?', x.query) == Authority(x) + (Resource(y) + Marked('?', y.query))
    ensures Text(x) == Authority(x) + Text(y)
  {
    assert Authority(y) == [] && Resource(y) == Marked('/', y.path);
    Regroup(Authority(x), Marked('/', x.path), Marked('?', x.query), Marked('#', x.fragment));
  }

  lemma AuthorityLacks(host: string, port: Option<string>)
    requires IsHost(host) && (port.Some? ==> IsPortText(port.value))
    ensures var a := host + Marked(':', port); Lacks(a, '/') && Lacks(a, '?') && Lacks(a, '#')
  {
    if port.Some? {
      LacksMarked(host, ':', port.value, '/');
      LacksMarked(host, ':', port.value, '?');
      LacksMarked(host, ':', port.value, '#');
    } else {
      assert host + [] == host;
    }
  }

  /** A link from its parts. */
  function Link(host: string, port: Option<string>, rest: string): string {
    "http://" + (host + Marked(':', port) + rest)
  }

  lemma ParsedLink(was: Parts, host: string, port: Option<string>, rest: string)
    requires IsHost(host) && (port.Some? ==> IsPortText(port.value)) && EndsAuthority(rest)
    ensures var link := Link(host, port, rest);
            Parsed(was, link) == Addressed(Located(was.(wholeLink := CText(link)), Cut(rest)), host, port)
  {
    var link := Link(host, port, rest);
    SchemeIsPrefix(link);
    assert link[7..] == host + Marked(':', port) + rest;
    WithAuthority(host, port, rest);
  }

  /** Two results agree but for the whole link. */
  predicate SameResult(a: (bool, Parts), b: (bool, Parts)) {
    a.0 == b.0 && SameParts(a.1, b.1)
  }

  lemma EightyIsEighty()
    ensures Atoi("80") == 80 && IsPortText("80") && CText("80") != []
  {
    assert Digits(80) == ['8', '0'] by {
      assert Digits(8) == ['8'];
    }
    NumberRoundTrip(80);
  }

  /** What a link with port 80 sets. */
  function WithPort80(was: Parts, host: string, rest: string): Parts {
    Located(was, Cut(rest)).(port := 80, host := host)
  }

  lemma NoPortIs80(was: Parts, host: string, rest: string)
    requires IsHost(host) && EndsAuthority(rest)
    ensures SameResult(Parsed(was, Link(host, None, rest)), (true, WithPort80(was, host, rest)))
  {
    ParsedLink(was, host, None, rest);
  }

  lemma WrittenPortIs80(was: Parts, host: string, rest: string)
    requires IsHost(host) && EndsAuthority(rest)
    ensures SameResult(Parsed(was, Link(host, Some("80"), rest)), (true, WithPort80(was, host, rest)))
  {
    EightyIsEighty();
    ParsedLink(was, host, Some("80"), rest);
  }

  lemma EmptyPortIs80(was: Parts, host: string, rest: string)
    requires IsHost(host) && EndsAuthority(rest)
    ensures SameResult(Parsed(was, Link(host, Some(""), rest)), (true, WithPort80(was, host, rest)))
            <==> '\0' !in host
  {
    ParsedLink(was, host, Some(""), rest);
    var link := Link(host, Some(""), rest);
    EmptyPort(Located(was.(wholeLink := CText(link)), Cut(rest)), host);
  }

  lemma EmptyPort(p: Parts, host: string)
    ensures Addressed(p, host, Some([])) == if '\0' !in host then (true, p.(port := 80, host := host))
                                            else (false, p.(port := 0))
  {
  }

  /** A link without a port is accepted and means port 80. With a colon and no port it means
      the same, except that a NUL in the host has it refused. */
  lemma DefaultPort(was: Parts, host: string, rest: string)
    requires IsHost(host) && EndsAuthority(rest)
    ensures var written := Parsed(was, Link(host, Some("80"), rest));
            && written.0 && written.1.port == 80 && written.1.host == host
            && SameResult(Parsed(was, Link(host, None, rest)), written)
            && (SameResult(Parsed(was, Link(host, Some(""), rest)), written) <==> '\0' !in host)
  {
    NoPortIs80(was, host, rest);
    WrittenPortIs80(was, host, rest);
    EmptyPortIs80(was, host, rest);
    SameAsWritten(Parsed(was, Link(host, None, rest)), Parsed(was, Link(host, Some("80"), rest)),
                  Parsed(was, Link(host, Some(""), rest)), WithPort80(was, host, rest));
  }

  lemma SameAsWritten(none: (bool, Parts), written: (bool, Parts), colon: (bool, Parts), p: Parts)
    requires SameResult(none, (true, p)) && SameResult(written, (true, p))
    ensures SameResult(none, written) && (SameResult(colon, written) <==> SameResult(colon, (true, p)))
  {
  }

  /** Which links are refused: those without the scheme, of which only the link is kept; */
  lemma RefusedWithoutScheme(was: Parts, link: string)
    requires !("http://" <= link)
    ensures !Parsed(was, link).0 && SameParts(Parsed(was, link).1, was)
  {
    SchemeIsPrefix(link);
  }

  /** and those with a port text that is no positive number, whose number is stored and whose
      host is not. */
  lemma PortExactly(was: Parts, host: string, port: string, rest: string)
    requires IsHost(host) && IsPortText(port) && EndsAuthority(rest)
    ensures var r, none := Parsed(was, Link(host, Some(port), rest)),
                           (port == [] || port[0] == '\0') && '\0' !in host;
            && (r.0 <==> none || Atoi(port) > 0)
            && r.1.port == (if none then 80 else Atoi(port))
            && r.1.host == (if r.0 then host else was.host)
  {
    ParsedLink(was, host, Some(port), rest);
    PortOf(Located(was.(wholeLink := CText(Link(host, Some(port), rest))), Cut(rest)), host, port);
  }

  lemma PortOf(was: Parts, host: string, port: string)
    ensures var r, none := Addressed(was, host, Some(port)), (port == [] || port[0] == '\0') && '\0' !in host;
            && (r.0 <==> none || Atoi(port) > 0)
            && r.1.port == (if none then 80 else Atoi(port))
            && r.1.host == (if r.0 then host else was.host)
  {
    assert CText(port) == [] <==> port == [] || port[0] == '\0';
  }

  /** A link without a path means the path `/`. */
  lemma DefaultPath(was: Parts, host: string, rest: string)
    requires IsHost(host) && (rest == [] || rest[0] == '?' || rest[0] == '#')
    ensures var r := Parsed(was, Link(host, None, rest));
            SameResult(r, Parsed(was, Link(host, None, ['/'] + rest))) && r.1.path == "/"
  {
    ParsedLink(was, host, None, rest);
    ParsedLink(was, host, None, ['/'] + rest);
    SlashInFront(rest);
  }

  lemma SlashInFront(rest: string)
    requires rest == [] || rest[0] == '?' || rest[0] == '#'
    ensures Cut(rest).path == None
    ensures Cut(['/'] + rest) == Cut(rest).(path := Some([]))
  {
    var y := Cut(rest);
    var x := y.(path := Some([]));
    RestPieces(rest);
    CutParses(rest, y);
    assert y.path == None by {
      var behind := Split(rest, '#');
      var asked := Split(behind.0, '?');
      assert asked.0 == [];
    }
    SlashPieces(x, y);
    LacksBoth(['/'], Resource(y) + Marked('?', y.query), '#');
    CutParses(['/'] + rest, x);
  }

  lemma SlashPieces(x: Pieces, y: Pieces)
    requires y.host == [] && y.port == None && y.path == None && x == y.(path := Some([]))
    ensures Resource(y) == [] && Resource(x) == ['/'] && Authority(x) == []
    ensures Resource(x) + Marked('?', x.query) == ['/'] + (Resource(y) + Marked('?', y.query))
    ensures Text(x) == ['/'] + Text(y)
  {
    assert Authority(y) == [] && Authority(x) == [];
    Regroup(['/'], Resource(y), Marked('?', x.query), Marked('#', x.fragment));
  }

  /** Query and fragment keep what they held when the link has none. */
  lemma AbsentMarksKeep(was: Parts, link: string)
    requires "http://" <= link
    ensures '#' !in link ==> Parsed(was, link).1.fragment == was.fragment
    ensures '?' !in link ==> Parsed(was, link).1.query == was.query
  {
    SchemeIsPrefix(link);
    var x := Cut(link[7..]);
    CutParses(link[7..], x);
    if x.fragment.Some? {
      MarkIsThere(Resource(x) + Marked('?', x.query), '#', x.fragment.value, link);
    }
    if x.query.Some? {
      MarkIsThere(Resource(x), '?', x.query.value, Text(x));
    }
  }

  lemma MarkIsThere(front: string, mark: char, text: string, link: string)
    requires front + Marked(mark, Some(text)) <= link || front + Marked(mark, Some(text)) == link[Min(7, |link|)..]
    ensures mark in link
  {
    assert (front + Marked(mark, Some(text)))[|front|] == mark;
  }

  /** The link kept is the C string that was passed. */
  lemma WholeLinkKept(was: Parts, link: string)
    ensures var kept := Parsed(was, link).1.wholeLink;
            kept <= link && '\0' !in kept && (|kept| < |link| ==> link[|kept|] == '\0')
  {
    KeepsCText(was, link);
  }

  lemma KeepsCText(was: Parts, link: string)
    ensures Parsed(was, link).1.wholeLink == CText(link)
  {
    if HasScheme(link) {
      AddressedKeepsLink(Located(was.(wholeLink := CText(link)), Cut(link[7..])), Cut(link[7..]));
    }
  }

  lemma AddressedKeepsLink(p: Parts, x: Pieces)
    ensures Addressed(p, x.host, x.port).1.wholeLink == p.wholeLink
  {
  }

  // ----- atoi

  predicate AllSpace(s: string) {
    forall i :: 0 <= i < |s| ==> s[i] as int == 32 || 9 <= s[i] as int <= 13
  }

  lemma {:induction false} SkipsSpace(spaces: string, rest: string)
    requires AllSpace(spaces)
    ensures Atoi(spaces + rest) == Atoi(rest)
  {
    if spaces == [] {
      assert spaces + rest == rest;
    } else {
      assert (spaces + rest)[0] == spaces[0] && (spaces + rest)[1..] == spaces[1..] + rest;
      SkipsSpace(spaces[1..], rest);
    }
  }

  lemma {:induction false} StopsAtOther(digits: string, rest: string, acc: nat)
    requires forall c :: c in digits ==> IsDigit(c)
    requires rest == [] || !('0' <= rest[0] <= '9')
    ensures DigitRun(digits + rest, acc) == DigitRun(digits, acc)
    decreases |digits|
  {
    if digits == [] {
      assert digits + rest == rest;
    } else {
      assert digits[0] in digits;
      assert (digits + rest)[1..] == digits[1..] + rest;
      StopsAtOther(digits[1..], rest, 10 * acc + (digits[0] - '0') as nat);
    }
  }

  /** atoi reads a printed number behind white space and a sign, up to the first other
      character, and gives the nearest int. */
  lemma AtoiReads(spaces: string, sign: string, n: nat, rest: string)
    requires AllSpace(spaces) && (sign == [] || sign == ['+'] || sign == ['-'])
    requires rest == [] || !('0' <= rest[0] <= '9')
    ensures Atoi(spaces + (sign + (Digits(n) + rest)))
         == if sign == ['-'] then Max(-0x8000_0000, 0 - n) else Min(0x7FFF_FFFF, n)
  {
    var text := Digits(n) + rest;
    SkipsSpace(spaces, sign + text);
    DigitsRead(n);
    StopsAtOther(Digits(n), rest, 0);
    assert IsDigit(Digits(n)[0]) && text[0] == Digits(n)[0];
    if sign == [] {
      assert sign + text == text;
    } else {
      assert (sign + text)[0] == sign[0] && (sign + text)[1..] == text;
    }
  }

  /** A text in which no number begins reads as 0. */
  lemma AtoiOfOther(spaces: string, rest: string)
    requires AllSpace(spaces)
    requires rest == [] || (!AllSpace(rest[..1]) && rest[0] !in ['+', '-'] && !('0' <= rest[0] <= '9'))
    ensures Atoi(spaces + rest) == 0
  {
    SkipsSpace(spaces, rest);
  }
}
