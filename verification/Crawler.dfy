/**
 The crawler object: what its threads do to the shared fields inside each lock.
 */
module Crawler {
  import opened Wrappers
  import opened CrawlerModel

  class Crawler {
    var q: seq<string>
    var seenHosts: set<string>
    var seenIPs: set<nat>
    var numberExtractedURL: nat
    var numberUniqueHost: nat
    var numberDnsLookup: nat
    var numberIpUnique: nat

    ghost function State(): Shared
      reads this
    {
      Shared(q, seenHosts, seenIPs, numberExtractedURL, numberUniqueHost, numberDnsLookup, numberIpUnique)
    }

    constructor (urls: seq<string>)
      ensures State() == Fresh(urls)
    {
      q, seenHosts, seenIPs := urls, {}, {};
      numberExtractedURL, numberUniqueHost, numberDnsLookup, numberIpUnique := 0, 0, 0, 0;
    }

    /** Under editQueueLink: `None` tells the thread to end, `Some("")` to try again. */
    method NextUrl() returns (url: Option<string>)
      modifies this
      ensures old(q) == [] ==> url == None && State() == old(State())
      ensures old(q) != [] ==> State() == Pop(old(State()))
      ensures old(q) != [] ==> url == Some(if Blank(old(q)[0]) then "" else old(q)[0])
    {
      if |q| == 0 {
        return None;
      }
      var front := q[0];
      if Blank(front) {
        return Some("");
      }
      q := q[1..];
      numberExtractedURL := numberExtractedURL + 1;
      return Some(front);
    }

    /** Under hostCheckUnique: whether this thread is the first to see the host. */
    method CheckHostUnique(host: string) returns (first: bool)
      modifies this
      ensures State() == InsertHost(old(State()), host)
      ensures first <==> host !in old(seenHosts)
    {
      first := host !in seenHosts;
      seenHosts := seenHosts + {host};
      if !first {
        assert seenHosts == old(seenHosts);
        return;
      }
      numberUniqueHost := numberUniqueHost + 1;
    }

    /** Under dnsCheckLock. */
    method CountDnsLookup()
      modifies this
      ensures State() == CountLookup(old(State()))
    {
      numberDnsLookup := numberDnsLookup + 1;
    }

    /** Under ipCheckLock: whether the address is new, told by the set's size. */
    method CheckIpUnique(ip: nat) returns (first: bool)
      modifies this
      ensures State() == InsertIp(old(State()), ip)
      ensures first <==> ip !in old(seenIPs)
    {
      var prevInsert := |seenIPs|;
      ghost var before := seenIPs;
      seenIPs := seenIPs + {ip};
      first := prevInsert != |seenIPs|;
      if first {
        numberIpUnique := numberIpUnique + 1;
      }
      if ip in before {
        assert seenIPs == before;
      }
    }
  }
}
