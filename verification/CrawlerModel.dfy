/**
 The crawler's threads over their shared state, up to the request for robots.txt: a queue of
 URLs, the hosts and addresses seen so far, and the counters, each touched only under its
 own lock.
 */
module CrawlerModel {
  import opened Wrappers

  /** What the threads share. */
  datatype Shared = Shared(
    q: seq<string>,
    seenHosts: set<string>,
    seenIPs: set<nat>,
    numberExtractedURL: nat,
    numberUniqueHost: nat,
    numberDnsLookup: nat,
    numberIpUnique: nat)

  function Fresh(q: seq<string>): Shared {
    Shared(q, {}, {}, 0, 0, 0, 0)
  }

  /** The first character of the URL as a C string is its end. */
  predicate Blank(url: string) {
    url == "" || url[0] == '\0'
  }

  // ----- the critical sections

  /** Takes the front URL off the queue, unless it is blank: then it stays. */
  function Pop(s: Shared): Shared
    requires s.q != []
  {
    if Blank(s.q[0]) then s else s.(q := s.q[1..], numberExtractedURL := s.numberExtractedURL + 1)
  }

  function InsertHost(s: Shared, host: string): Shared {
    if host in s.seenHosts then s
    else s.(seenHosts := s.seenHosts + {host}, numberUniqueHost := s.numberUniqueHost + 1)
  }

  function CountLookup(s: Shared): Shared {
    s.(numberDnsLookup := s.numberDnsLookup + 1)
  }

  /** Whether the address was new is decided by comparing the sizes before and after. */
  function InsertIp(s: Shared, ip: nat): Shared {
    var seen := s.seenIPs + {ip};
    s.(seenIPs := seen,
       numberIpUnique := if |seen| != |s.seenIPs| then s.numberIpUnique + 1 else s.numberIpUnique)
  }

  // ----- one thread

  datatype Thread =
    | Fetch
    | Parsing(url: string)
    | CheckHost(host: string)
    | Resolving(host: string)
    | Counting(host: string, ip: nat)
    | CheckIp(host: string, ip: nat)
    | Robots(host: string, ip: nat)
    | Done

  /** URL parsing and name resolution, as fixed partial functions. */
  datatype World = World(parse: string -> Option<string>, dns: string -> Option<nat>)

  /** All threads over the shared state; `popped`, `counted` and `visited` record what was
      taken off the queue, counted as resolved, and asked for robots.txt. */
  datatype Crawl = Crawl(
    shared: Shared,
    threads: seq<Thread>,
    popped: seq<string>,
    counted: set<string>,
    visited: seq<(string, nat)>)

  function Start(q: seq<string>, n: nat): (c: Crawl)
    ensures |c.threads| == n
  {
    Crawl(Fresh(q), seq(n, _ => Fetch), [], {}, [])
  }

  /** Thread `i` runs to the end of its current critical section or call. */
  function Step(w: World, c: Crawl, i: nat): (r: Crawl)
    requires i < |c.threads|
    ensures |r.threads| == |c.threads|
  {
    var s := c.shared;
    match c.threads[i]
    case Fetch =>
      if s.q == [] then c.(threads := c.threads[i := Done])
      else if Blank(s.q[0]) then c
      else c.(shared := Pop(s), threads := c.threads[i := Parsing(s.q[0])], popped := c.popped + [s.q[0]])
    case Parsing(url) =>
      c.(threads := c.threads[i := if w.parse(url).Some? then CheckHost(w.parse(url).value) else Fetch])
    case CheckHost(host) =>
      c.(shared := InsertHost(s, host),
         threads := c.threads[i := if host in s.seenHosts then Fetch else Resolving(host)])
    case Resolving(host) =>
      c.(threads := c.threads[i := if w.dns(host).Some? then Counting(host, w.dns(host).value) else Fetch])
    case Counting(host, ip) =>
      c.(shared := CountLookup(s), threads := c.threads[i := CheckIp(host, ip)], counted := c.counted + {host})
    case CheckIp(host, ip) =>
      c.(shared := InsertIp(s, ip),
         threads := c.threads[i := if |s.seenIPs + {ip}| != |s.seenIPs| then Robots(host, ip) else Fetch])
    case Robots(host, ip) =>
      c.(threads := c.threads[i := Fetch], visited := c.visited + [(host, ip)])
    case Done => c
  }

  /** A schedule names the thread that moves, step after step. */
  function Run(w: World, c: Crawl, schedule: seq<nat>): (r: Crawl)
    requires forall k :: 0 <= k < |schedule| ==> schedule[k] < |c.threads|
    ensures |r.threads| == |c.threads|
    decreases |schedule|
  {
    if schedule == [] then c else Run(w, Step(w, c, schedule[0]), schedule[1..])
  }

  predicate Finished(c: Crawl) {
    forall i :: 0 <= i < |c.threads| ==> c.threads[i] == Done
  }

  // ----- what the counters should be

  function ParsedHosts(w: World, urls: seq<string>): set<string> {
    set u | u in urls && w.parse(u).Some? :: w.parse(u).value
  }

  function ResolvedHosts(w: World, hosts: set<string>): set<string> {
    set h | h in hosts && w.dns(h).Some?
  }

  function Addresses(w: World, hosts: set<string>): set<nat> {
    set h | h in hosts && w.dns(h).Some? :: w.dns(h).value
  }
}
