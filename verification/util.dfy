/** `TestConnectivity`: pick the first address, in list order, that accepts a
    connection. The dial itself is a foreign library call and appears here as
    an abstract predicate on the dialed address string. */
module Util {

  /** The address dialed for `addr`: `addr` itself when no port is given,
      otherwise `addr:port`. */
  function DialAddress(addr: string, port: string): (r: string)
    ensures |addr| <= |r| && r[..|addr|] == addr
    ensures r == addr <==> port == ""
    ensures port != "" ==> |r| == |addr| + 1 + |port| && r[|addr|] == ':' && r[|addr| + 1..] == port
  {
    if port == "" then addr else addr + ":" + port
  }

  /** Strips a `:port` suffix again, leaving an address without that suffix
      as it is; the inverse of `DialAddress` for a fixed port. */
  function HostOf(address: string, port: string): string {
    var cut := |address| - |port| - 1;
    if port != "" && cut >= 0 && address[cut..] == ":" + port then address[..cut] else address
  }

  lemma DialAddressRoundTrip(addr: string, port: string)
    ensures HostOf(DialAddress(addr, port), port) == addr
  {
    if port != "" {
      var r := DialAddress(addr, port);
      assert r == addr + ":" + port;
      assert r[|addr|..] == ":" + port;
      assert r[..|addr|] == addr;
    }
  }

  /** `i` is the first position whose address accepts a connection. */
  ghost predicate FirstReachable(addrs: seq<string>, port: string, dial: string -> bool, i: int) {
    && 0 <= i < |addrs|
    && dial(DialAddress(addrs[i], port))
    && NoneReachableBefore(addrs, port, dial, i)
  }

  /** None of the first `n` addresses accepts a connection. */
  ghost predicate NoneReachableBefore(addrs: seq<string>, port: string, dial: string -> bool, n: int) {
    forall j :: 0 <= j < n && j < |addrs| ==> !dial(DialAddress(addrs[j], port))
  }

  /** `dialed` is the dial attempts for exactly the first `n` addresses, in order. */
  ghost predicate DialedFirst(dialed: seq<string>, addrs: seq<string>, port: string, n: int) {
    && |dialed| == n <= |addrs|
    && forall j :: 0 <= j < n ==> dialed[j] == DialAddress(addrs[j], port)
  }

  /** One more dial attempt extends the record by the next address. */
  lemma DialedNext(dialed: seq<string>, addrs: seq<string>, port: string, n: int)
    requires DialedFirst(dialed, addrs, port, n) && n < |addrs|
    ensures DialedFirst(dialed + [DialAddress(addrs[n], port)], addrs, port, n + 1)
  {
  }

  /** The outcome when the `n`-th address is the first to connect. */
  lemma Found(addrs: seq<string>, port: string, dial: string -> bool, dialed: seq<string>, n: int)
    requires 0 <= n < |addrs| && dial(DialAddress(addrs[n], port))
    requires NoneReachableBefore(addrs, port, dial, n)
    requires DialedFirst(dialed, addrs, port, n + 1)
    ensures addrs[n] in addrs
    ensures FirstReachable(addrs, port, dial, n)
    ensures !NoneReachableBefore(addrs, port, dial, |addrs|)
    ensures forall i :: FirstReachable(addrs, port, dial, i) ==>
              addrs[n] == addrs[i] && DialedFirst(dialed, addrs, port, i + 1)
  {
  }

  /** The outcome when no address connects. */
  lemma NotFound(addrs: seq<string>, port: string, dial: string -> bool)
    requires NoneReachableBefore(addrs, port, dial, |addrs|)
    ensures forall i :: !FirstReachable(addrs, port, dial, i)
  {
  }

  /** Dials the addresses one by one and returns the first that connects,
      bare (without the port), or `""` when none does. `dialed` records the
      dial attempts: nothing after the first success is dialed. */
  method TestConnectivity(addrs: seq<string>, port: string, dial: string -> bool)
    returns (r: string, ghost dialed: seq<string>)
    ensures r == "" || r in addrs
    ensures r != "" ==> exists i :: FirstReachable(addrs, port, dial, i) && r == addrs[i]
    ensures NoneReachableBefore(addrs, port, dial, |addrs|) ==>
              r == "" && DialedFirst(dialed, addrs, port, |addrs|)
    ensures forall i :: FirstReachable(addrs, port, dial, i) ==>
              r == addrs[i] && DialedFirst(dialed, addrs, port, i + 1)
  {
    dialed := [];
    var n := 0;
    while n < |addrs|
      invariant 0 <= n <= |addrs|
      invariant DialedFirst(dialed, addrs, port, n)
      invariant NoneReachableBefore(addrs, port, dial, n)
    {
      var addr := addrs[n];
      var address := DialAddress(addr, port);
      DialedNext(dialed, addrs, port, n);
      dialed := dialed + [address];
      if dial(address) {
        Found(addrs, port, dial, dialed, n);
        return addr, dialed;
      }
      n := n + 1;
    }
    NotFound(addrs, port, dial);
    return "", dialed;
  }
}
