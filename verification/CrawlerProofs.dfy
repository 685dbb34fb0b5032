/**
 The crawler's invariant, and that its results do not depend on the schedule.
 */
module CrawlerProofs {
  import opened Wrappers
  import opened CrawlerModel

  // ----- the conjuncts of the invariant

  /** The queue and what was taken off it make up the initial queue. */
  predicate QueueInv(q0: seq<string>, c: Crawl) {
    && c.popped + c.shared.q == q0
    && c.shared.numberExtractedURL == |c.popped|
    && (forall u :: u in c.popped ==> !Blank(u))
    && (Done in c.threads ==> c.shared.q == [])
  }

  /** Every host of a popped URL was seen, or its thread is on the way to tell. */
  ghost predicate HostPending(w: World, c: Crawl) {
    forall u :: u in c.popped && w.parse(u).Some? ==>
      w.parse(u).value in c.shared.seenHosts
      || Parsing(u) in c.threads || CheckHost(w.parse(u).value) in c.threads
  }

  /** Only hosts of popped URLs are seen or about to be. */
  ghost predicate HostSound(w: World, c: Crawl) {
    && c.shared.numberUniqueHost == |c.shared.seenHosts|
    && (forall h :: h in c.shared.seenHosts ==> HostOf(w, c.popped, h))
    && (forall i :: 0 <= i < |c.threads| ==> WorksOn(w, c.popped, c.threads[i]))
  }

  predicate WorksOn(w: World, urls: seq<string>, t: Thread) {
    && (t.Parsing? ==> t.url in urls)
    && (t.CheckHost? ==> HostOf(w, urls, t.host))
  }

  predicate HostOf(w: World, urls: seq<string>, h: string) {
    exists u :: u in urls && w.parse(u) == Some(h)
  }

  /** The host a thread works on after it was the first to see it. */
  function Owned(t: Thread): Option<string> {
    match t
    case Resolving(h) => Some(h)
    case Counting(h, _) => Some(h)
    case CheckIp(h, _) => Some(h)
    case Robots(h, _) => Some(h)
    case _ => None
  }

  /** No two threads own the same host, and none owns a host that was visited. */
  ghost predicate OwnerInv(c: Crawl) {
    && (forall i, j :: 0 <= i < j < |c.threads| && Owned(c.threads[i]).Some? ==>
          Owned(c.threads[i]) != Owned(c.threads[j]))
    && (forall i :: 0 <= i < |c.threads| && Owned(c.threads[i]).Some? ==>
          Owned(c.threads[i]).value in c.shared.seenHosts)
    && (forall i, k :: 0 <= i < |c.threads| && 0 <= k < |c.visited| ==>
          Owned(c.threads[i]) != Some(c.visited[k].0))
    && (forall k :: 0 <= k < |c.visited| ==> c.visited[k].0 in c.shared.seenHosts)
  }

  /** Every seen host that resolves was counted, or its thread is on the way to do so. */
  ghost predicate LookupPending(w: World, c: Crawl) {
    forall h :: h in c.shared.seenHosts && w.dns(h).Some? ==>
      h in c.counted || Resolving(h) in c.threads || Counting(h, w.dns(h).value) in c.threads
  }

  /** Each counted host was counted once, and resolves to the address its thread carries. */
  ghost predicate LookupSound(w: World, c: Crawl) {
    && c.shared.numberDnsLookup == |c.counted|
    && c.counted <= ResolvedHosts(w, c.shared.seenHosts)
    && (forall i :: 0 <= i < |c.threads| ==> Carries(w, c.counted, c.threads[i]))
  }

  predicate Carries(w: World, counted: set<string>, t: Thread) {
    match t
    case Resolving(h) => h !in counted
    case Counting(h, ip) => h !in counted && w.dns(h) == Some(ip)
    case CheckIp(h, ip) => h in counted && w.dns(h) == Some(ip)
    case Robots(h, ip) => h in counted && w.dns(h) == Some(ip)
    case _ => true
  }

  /** The address of every counted host was seen, or its thread is on the way to tell. */
  ghost predicate AddressInv(w: World, c: Crawl) {
    && c.shared.numberIpUnique == |c.shared.seenIPs|
    && c.shared.seenIPs <= Addresses(w, c.counted)
    && (forall h :: h in c.counted && w.dns(h).Some? ==>
          w.dns(h).value in c.shared.seenIPs || CheckIp(h, w.dns(h).value) in c.threads)
  }

  /** Every address seen was asked for robots.txt, or one thread is about to. */
  ghost predicate VisitPending(c: Crawl) {
    forall ip :: ip in c.shared.seenIPs ==>
      (exists k :: 0 <= k < |c.visited| && c.visited[k].1 == ip)
      || (exists i :: 0 <= i < |c.threads| && c.threads[i].Robots? && c.threads[i].ip == ip)
  }

  /** No host and no address is asked twice. */
  ghost predicate VisitSound(c: Crawl) {
    && (forall i, j :: 0 <= i < j < |c.threads| && c.threads[i].Robots? && c.threads[j].Robots? ==>
          c.threads[i].ip != c.threads[j].ip)
    && (forall i :: 0 <= i < |c.threads| && c.threads[i].Robots? ==> c.threads[i].ip in c.shared.seenIPs)
    && (forall i, k :: 0 <= i < |c.threads| && c.threads[i].Robots? && 0 <= k < |c.visited| ==>
          c.threads[i].ip != c.visited[k].1)
    && (forall k :: 0 <= k < |c.visited| ==> c.visited[k].1 in c.shared.seenIPs)
    && (forall k, l :: 0 <= k < l < |c.visited| ==>
          c.visited[k].0 != c.visited[l].0 && c.visited[k].1 != c.visited[l].1)
  }

  // ----- one step

  lemma QueueStep(w: World, q0: seq<string>, c: Crawl, i: nat)
    requires i < |c.threads| && QueueInv(q0, c)
    ensures QueueInv(q0, Step(w, c, i))
  {
  }

  /** Other threads keep their place. */
  lemma OthersStay(threads: seq<Thread>, i: nat, t: Thread, other: Thread)
    requires i < |threads| && other in threads && other != threads[i]
    ensures other in threads[i := t]
  {
    var j :| 0 <= j < |threads| && threads[j] == other;
    assert threads[i := t][j] == other;
  }

  lemma WorksOnMore(w: World, urls: seq<string>, more: seq<string>, t: Thread)
    requires WorksOn(w, urls, t)
    ensures WorksOn(w, urls + more, t)
  {
    if t.CheckHost? {
      HostOfMore(w, urls, more, t.host);
    }
  }

  lemma HostOfMore(w: World, urls: seq<string>, more: seq<string>, h: string)
    requires HostOf(w, urls, h)
    ensures HostOf(w, urls + more, h)
  {
    var u :| u in urls && w.parse(u) == Some(h);
    assert u in urls + more;
  }

  lemma HostSoundStep(w: World, c: Crawl, i: nat)
    requires i < |c.threads| && HostSound(w, c)
    ensures HostSound(w, Step(w, c, i))
  {
    var r := Step(w, c, i);
    assert WorksOn(w, c.popped, c.threads[i]);
    var more := r.popped[|c.popped|..];
    assert r.popped == c.popped + more;
    forall h | h in r.shared.seenHosts ensures HostOf(w, r.popped, h) {
      HostOfMore(w, c.popped, more, h);
    }
    forall j | 0 <= j < |r.threads| ensures WorksOn(w, r.popped, r.threads[j]) {
      if j != i {
        WorksOnMore(w, c.popped, more, c.threads[j]);
      } else if c.threads[i].Parsing? && r.threads[i].CheckHost? {
        assert c.threads[i].url in r.popped;
      }
    }
  }

  lemma HostPendingStep(w: World, c: Crawl, i: nat)
    requires i < |c.threads| && HostPending(w, c)
    ensures HostPending(w, Step(w, c, i))
  {
    var r := Step(w, c, i);
    var t := r.threads[i];
    assert r.threads == c.threads[i := t];
    forall u | u in r.popped && w.parse(u).Some?
      ensures w.parse(u).value in r.shared.seenHosts
              || Parsing(u) in r.threads || CheckHost(w.parse(u).value) in r.threads
    {
      var h := w.parse(u).value;
      if u !in c.popped {
        assert t == Parsing(u);
      } else if Parsing(u) in c.threads && c.threads[i] != Parsing(u) {
        OthersStay(c.threads, i, t, Parsing(u));
      } else if CheckHost(h) in c.threads && c.threads[i] != CheckHost(h) {
        OthersStay(c.threads, i, t, CheckHost(h));
      } else if c.threads[i] == Parsing(u) {
        assert t == CheckHost(h);
      }
    }
  }

  lemma OwnerStep(w: World, c: Crawl, i: nat)
    requires i < |c.threads| && OwnerInv(c)
    ensures OwnerInv(Step(w, c, i))
  {
    if c.threads[i].CheckHost? {
      OwnerFound(w, c, i);
    } else if c.threads[i].Robots? {
      OwnerVisits(w, c, i);
    } else {
      OwnerStays(w, c, i);
    }
  }

  lemma OwnerFound(w: World, c: Crawl, i: nat)
    requires i < |c.threads| && OwnerInv(c) && c.threads[i].CheckHost?
    ensures OwnerInv(Step(w, c, i))
  {
  }

  lemma OwnerVisits(w: World, c: Crawl, i: nat)
    requires i < |c.threads| && OwnerInv(c) && c.threads[i].Robots?
    ensures OwnerInv(Step(w, c, i))
  {
  }

  lemma OwnerStays(w: World, c: Crawl, i: nat)
    requires i < |c.threads| && OwnerInv(c) && !c.threads[i].CheckHost? && !c.threads[i].Robots?
    ensures OwnerInv(Step(w, c, i))
  {
  }

  lemma LookupSoundStep(w: World, c: Crawl, i: nat)
    requires i < |c.threads| && OwnerInv(c) && LookupSound(w, c)
    ensures LookupSound(w, Step(w, c, i))
  {
    CarriesStep(w, c, i);
    assert Carries(w, c.counted, c.threads[i]);
    assert c.threads[i].Counting? ==> c.threads[i].host in c.shared.seenHosts by {
      assert c.threads[i].Counting? ==> Owned(c.threads[i]).value == c.threads[i].host;
    }
  }

  lemma CarriesStep(w: World, c: Crawl, i: nat)
    requires i < |c.threads| && OwnerInv(c) && LookupSound(w, c)
    ensures var r := Step(w, c, i);
            forall j :: 0 <= j < |r.threads| ==> Carries(w, r.counted, r.threads[j])
  {
    var r := Step(w, c, i);
    assert Carries(w, c.counted, c.threads[i]);
    forall j | 0 <= j < |r.threads| ensures Carries(w, r.counted, r.threads[j]) {
      if j != i {
        assert Carries(w, c.counted, c.threads[j]);
        assert Owned(c.threads[i]).Some? ==> Owned(c.threads[j]) != Owned(c.threads[i]);
      }
    }
  }

  lemma LookupPendingStep(w: World, c: Crawl, i: nat)
    requires i < |c.threads| && LookupSound(w, c) && LookupPending(w, c)
    ensures LookupPending(w, Step(w, c, i))
  {
    var r := Step(w, c, i);
    var t := r.threads[i];
    assert r.threads == c.threads[i := t];
    forall h | h in r.shared.seenHosts && w.dns(h).Some?
      ensures h in r.counted || Resolving(h) in r.threads || Counting(h, w.dns(h).value) in r.threads
    {
      if h in c.shared.seenHosts && h !in c.counted {
        if Resolving(h) in c.threads {
          if c.threads[i] != Resolving(h) {
            OthersStay(c.threads, i, t, Resolving(h));
          }
        } else if c.threads[i] != Counting(h, w.dns(h).value) {
          OthersStay(c.threads, i, t, Counting(h, w.dns(h).value));
        }
      }
    }
  }

  /** A set grows by an insertion exactly when the element is new. */
  lemma SizeTellsNew(s: set<nat>, x: nat)
    ensures |s + {x}| != |s| <==> x !in s
    ensures x !in s ==> |s + {x}| == |s| + 1
  {
    if x in s {
      assert s + {x} == s;
    }
  }

  lemma AddressStep(w: World, c: Crawl, i: nat)
    requires i < |c.threads| && LookupSound(w, c) && AddressInv(w, c)
    ensures AddressInv(w, Step(w, c, i))
  {
    var r := Step(w, c, i);
    var t := r.threads[i];
    assert r.threads == c.threads[i := t];
    if c.threads[i].CheckIp? {
      SizeTellsNew(c.shared.seenIPs, c.threads[i].ip);
    }
    forall h | h in r.counted && w.dns(h).Some?
      ensures w.dns(h).value in r.shared.seenIPs || CheckIp(h, w.dns(h).value) in r.threads
    {
      if h in c.counted && CheckIp(h, w.dns(h).value) in c.threads && c.threads[i] != CheckIp(h, w.dns(h).value) {
        OthersStay(c.threads, i, t, CheckIp(h, w.dns(h).value));
      }
    }
  }

  lemma VisitSoundStep(w: World, c: Crawl, i: nat)
    requires i < |c.threads| && OwnerInv(c) && VisitSound(c)
    ensures VisitSound(Step(w, c, i))
  {
    if c.threads[i].CheckIp? {
      VisitFound(w, c, i);
    } else if c.threads[i].Robots? {
      VisitMade(w, c, i);
    } else {
      VisitStays(w, c, i);
    }
  }

  lemma VisitFound(w: World, c: Crawl, i: nat)
    requires i < |c.threads| && VisitSound(c) && c.threads[i].CheckIp?
    ensures VisitSound(Step(w, c, i))
  {
    SizeTellsNew(c.shared.seenIPs, c.threads[i].ip);
  }

  lemma VisitMade(w: World, c: Crawl, i: nat)
    requires i < |c.threads| && OwnerInv(c) && VisitSound(c) && c.threads[i].Robots?
    ensures VisitSound(Step(w, c, i))
  {
  }

  lemma VisitStays(w: World, c: Crawl, i: nat)
    requires i < |c.threads| && VisitSound(c) && !c.threads[i].CheckIp? && !c.threads[i].Robots?
    ensures VisitSound(Step(w, c, i))
  {
  }

  lemma VisitPendingStep(w: World, c: Crawl, i: nat)
    requires i < |c.threads| && VisitPending(c)
    ensures VisitPending(Step(w, c, i))
  {
    var r := Step(w, c, i);
    if c.threads[i].CheckIp? {
      SizeTellsNew(c.shared.seenIPs, c.threads[i].ip);
    }
    forall ip | ip in r.shared.seenIPs
      ensures (exists k :: 0 <= k < |r.visited| && r.visited[k].1 == ip)
           || (exists j :: 0 <= j < |r.threads| && r.threads[j].Robots? && r.threads[j].ip == ip)
    {
      if k :| 0 <= k < |c.visited| && c.visited[k].1 == ip {
        assert r.visited[k].1 == ip;
      } else if j :| 0 <= j < |c.threads| && c.threads[j].Robots? && c.threads[j].ip == ip {
        if j == i {
          assert r.visited[|c.visited|].1 == ip;
        } else {
          assert r.threads[j] == c.threads[j];
        }
      } else {
        assert r.threads[i].Robots?;
      }
    }
  }

  ghost predicate Inv(w: World, q0: seq<string>, c: Crawl) {
    && QueueInv(q0, c)
    && HostSound(w, c) && HostPending(w, c)
    && OwnerInv(c)
    && LookupSound(w, c) && LookupPending(w, c)
    && AddressInv(w, c)
    && VisitSound(c) && VisitPending(c)
  }

  lemma InvStep(w: World, q0: seq<string>, c: Crawl, i: nat)
    requires i < |c.threads| && Inv(w, q0, c)
    ensures Inv(w, q0, Step(w, c, i))
  {
    QueueStep(w, q0, c, i);
    HostSoundStep(w, c, i);
    HostPendingStep(w, c, i);
    OwnerStep(w, c, i);
    LookupSoundStep(w, c, i);
    LookupPendingStep(w, c, i);
    AddressStep(w, c, i);
    VisitSoundStep(w, c, i);
    VisitPendingStep(w, c, i);
  }

  lemma {:induction false} InvRun(w: World, q0: seq<string>, c: Crawl, schedule: seq<nat>)
    requires forall k :: 0 <= k < |schedule| ==> schedule[k] < |c.threads|
    requires Inv(w, q0, c)
    ensures Inv(w, q0, Run(w, c, schedule))
    decreases |schedule|
  {
    if schedule != [] {
      InvStep(w, q0, c, schedule[0]);
      InvRun(w, q0, Step(w, c, schedule[0]), schedule[1..]);
    }
  }

  // ----- results

  /** What every run of a finished crawl ends with. */
  ghost predicate Outcome(w: World, q0: seq<string>, c: Crawl) {
    var hosts := ParsedHosts(w, q0);
    && c.shared.q == []
    && c.shared.seenHosts == hosts
    && c.shared.seenIPs == Addresses(w, hosts)
    && c.shared.numberExtractedURL == |q0|
    && c.shared.numberUniqueHost == |hosts|
    && c.shared.numberDnsLookup == |ResolvedHosts(w, hosts)|
    && c.shared.numberIpUnique == |Addresses(w, hosts)|
  }

  lemma FinishedHosts(w: World, q0: seq<string>, c: Crawl)
    requires QueueInv(q0, c) && HostSound(w, c) && HostPending(w, c)
    requires Finished(c) && c.threads != []
    ensures c.shared.q == [] && c.popped == q0
    ensures c.shared.seenHosts == ParsedHosts(w, q0)
  {
    assert c.threads[0] == Done;
    assert c.popped == q0;
    forall h | h in ParsedHosts(w, q0) ensures h in c.shared.seenHosts {
      var u :| u in q0 && w.parse(u) == Some(h);
    }
    forall h | h in c.shared.seenHosts ensures h in ParsedHosts(w, q0) {
      var u :| u in q0 && w.parse(u) == Some(h);
    }
  }

  lemma FinishedAddresses(w: World, c: Crawl)
    requires LookupSound(w, c) && LookupPending(w, c) && AddressInv(w, c) && Finished(c)
    ensures c.counted == ResolvedHosts(w, c.shared.seenHosts)
    ensures c.shared.seenIPs == Addresses(w, c.shared.seenHosts)
  {
    forall ip | ip in Addresses(w, c.shared.seenHosts) ensures ip in c.shared.seenIPs {
      var h :| h in c.shared.seenHosts && w.dns(h) == Some(ip);
      assert h in c.counted;
    }
  }

  /** For any number of threads and any interleaving, a finished crawl has the counts that
      the initial queue and the world determine. */
  lemma FinishedOutcome(w: World, q0: seq<string>, n: nat, schedule: seq<nat>)
    requires 1 <= n && forall k :: 0 <= k < |schedule| ==> schedule[k] < n
    requires Finished(Run(w, Start(q0, n), schedule))
    ensures Outcome(w, q0, Run(w, Start(q0, n), schedule))
  {
    var c := Run(w, Start(q0, n), schedule);
    InvRun(w, q0, Start(q0, n), schedule);
    FinishedHosts(w, q0, c);
    FinishedAddresses(w, c);
  }

  /** And it asked each distinct address for robots.txt exactly once, for distinct hosts. */
  lemma FinishedVisits(w: World, q0: seq<string>, n: nat, schedule: seq<nat>)
    requires 1 <= n && forall k :: 0 <= k < |schedule| ==> schedule[k] < n
    requires Finished(Run(w, Start(q0, n), schedule))
    ensures var visited := Run(w, Start(q0, n), schedule).visited;
            && |visited| == |Addresses(w, ParsedHosts(w, q0))|
            && (forall k, l :: 0 <= k < l < |visited| ==>
                  visited[k].0 != visited[l].0 && visited[k].1 != visited[l].1)
            && (forall ip :: ip in Addresses(w, ParsedHosts(w, q0)) <==>
                  exists k :: 0 <= k < |visited| && visited[k].1 == ip)
  {
    var c := Run(w, Start(q0, n), schedule);
    InvRun(w, q0, Start(q0, n), schedule);
    FinishedHosts(w, q0, c);
    FinishedAddresses(w, c);
    CountDistinct(c.visited, c.shared.seenIPs);
  }

  lemma {:induction false} CountDistinct(visited: seq<(string, nat)>, ips: set<nat>)
    requires forall k, l :: 0 <= k < l < |visited| ==> visited[k].1 != visited[l].1
    requires forall ip :: ip in ips <==> exists k :: 0 <= k < |visited| && visited[k].1 == ip
    ensures |visited| == |ips|
    decreases |visited|
  {
    if visited == [] {
      assert ips == {};
    } else {
      var m := |visited| - 1;
      var rest := visited[..m];
      var fewer := ips - {visited[m].1};
      forall ip ensures ip in fewer <==> exists k :: 0 <= k < |rest| && rest[k].1 == ip {
        if ip in fewer {
          var k :| 0 <= k < |visited| && visited[k].1 == ip;
          assert rest[k].1 == ip;
        }
        if k :| 0 <= k < |rest| && rest[k].1 == ip {
          assert visited[k].1 == ip;
        }
      }
      CountDistinct(rest, fewer);
    }
  }

  /** The results do not depend on the number of threads or on the schedule. */
  lemma ScheduleIndependence(w: World, q0: seq<string>, n: nat, first: seq<nat>, m: nat, second: seq<nat>)
    requires 1 <= n && forall k :: 0 <= k < |first| ==> first[k] < n
    requires 1 <= m && forall k :: 0 <= k < |second| ==> second[k] < m
    requires Finished(Run(w, Start(q0, n), first)) && Finished(Run(w, Start(q0, m), second))
    ensures Run(w, Start(q0, n), first).shared == Run(w, Start(q0, m), second).shared
  {
    FinishedOutcome(w, q0, n, first);
    FinishedOutcome(w, q0, m, second);
  }

  /** While the crawl is under way, popped and queued URLs add up, and nothing is asked twice. */
  lemma UnderWay(w: World, q0: seq<string>, n: nat, schedule: seq<nat>)
    requires forall k :: 0 <= k < |schedule| ==> schedule[k] < n
    ensures var c := Run(w, Start(q0, n), schedule);
            && c.shared.numberExtractedURL + |c.shared.q| == |q0|
            && c.shared.numberIpUnique <= c.shared.numberDnsLookup <= c.shared.numberUniqueHost
            && (forall k, l :: 0 <= k < l < |c.visited| ==>
                  c.visited[k].0 != c.visited[l].0 && c.visited[k].1 != c.visited[l].1)
  {
    var c := Run(w, Start(q0, n), schedule);
    InvRun(w, q0, Start(q0, n), schedule);
    AddressesAreFewer(w, c.counted);
    SubsetSize(c.shared.seenIPs, Addresses(w, c.counted));
    SubsetSize(c.counted, c.shared.seenHosts);
  }

  lemma {:induction false} AddressesAreFewer(w: World, hosts: set<string>)
    ensures |Addresses(w, hosts)| <= |hosts|
    decreases |hosts|
  {
    if hosts == {} {
      assert Addresses(w, hosts) == {};
    } else {
      var h :| h in hosts;
      var rest := hosts - {h};
      AddressesAreFewer(w, rest);
      if w.dns(h).Some? {
        assert Addresses(w, hosts) == Addresses(w, rest) + {w.dns(h).value};
      } else {
        assert Addresses(w, hosts) == Addresses(w, rest);
      }
    }
  }
}
