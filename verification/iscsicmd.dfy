/** The `iscsi` command-line entry point: subcommand dispatch, and the
    `login` / `logout` commands that split `--portals` on commas and hand every
    piece, in order, to the external discover-and-login (or logout) routine.

    The external routines are an oracle: `Oracle(op, n, portal)` says whether
    the `n`-th call of this invocation returned no error. Which calls were made
    is recorded in a ghost trace; the portals whose call failed (the ones the
    command logs an error for) are a real result. */
module IscsiCmd {
  import opened GoStrings

  const LoginCommand := "login"
  const LogoutCommand := "logout"
  const WatchCommand := "watch"

  /** `iscsi.DiscoverAndLogin` or `iscsi.DiscoverAndLogout`. */
  datatype Op = DiscoverAndLogin | DiscoverAndLogout

  datatype Call = Call(op: Op, portal: string)

  /** How the process ends: with an exit status, or never (the `watch` loop). */
  datatype Status = Exit(code: int) | RunsForever

  /** What the flag library makes of a subcommand's arguments: the value of
      `--portals` (`""` when absent), or an exit it performs itself. */
  datatype FlagResult = Parsed(portals: string) | FlagExit(code: int)

  type Oracle = (Op, nat, string) -> bool

  /** Parses the arguments after the subcommand with that subcommand's flag set. */
  type FlagParser = (string, seq<string>) -> FlagResult

  /** The portals among the first `n` calls whose call returned an error, in
      call order. */
  function Failures(op: Op, portals: seq<string>, succeeded: Oracle, n: nat): (r: seq<string>)
    requires n <= |portals|
    ensures |r| <= n
    ensures forall p :: p in r ==> p in portals[..n]
    decreases n
  {
    if n == 0 then []
    else
      var earlier := Failures(op, portals, succeeded, n - 1);
      assert forall p :: p in portals[..n - 1] ==> p in portals[..n];
      if succeeded(op, n - 1, portals[n - 1]) then earlier else earlier + [portals[n - 1]]
  }

  /** The indices, among the first `n` calls, whose call returned an error. */
  ghost function FailingCalls(op: Op, portals: seq<string>, succeeded: Oracle, n: nat): set<nat>
    requires n <= |portals|
  {
    set i: nat | i < n && !succeeded(op, i, portals[i])
  }

  /** Every call that returns an error gets its failure line. */
  lemma {:induction false} FailedCallIsReported(op: Op, portals: seq<string>, succeeded: Oracle, n: nat, i: nat)
    requires n <= |portals| && i < n && !succeeded(op, i, portals[i])
    ensures portals[i] in Failures(op, portals, succeeded, n)
    decreases n
  {
    if i < n - 1 {
      FailedCallIsReported(op, portals, succeeded, n - 1, i);
    }
  }

  /** Every reported portal was handed to a call that returned an error. */
  lemma {:induction false} ReportedPortalFailed(op: Op, portals: seq<string>, succeeded: Oracle, n: nat, p: string)
    requires n <= |portals| && p in Failures(op, portals, succeeded, n)
    ensures exists i :: 0 <= i < n && portals[i] == p && !succeeded(op, i, p)
    decreases n
  {
    var earlier := Failures(op, portals, succeeded, n - 1);
    if p in earlier {
      ReportedPortalFailed(op, portals, succeeded, n - 1, p);
    } else {
      assert portals[n - 1] == p && !succeeded(op, n - 1, p);
    }
  }

  /** Failure lines come out in call order: the failures of the first `m`
      calls are a prefix of the failures of the first `n`. */
  lemma {:induction false} FailuresInCallOrder(op: Op, portals: seq<string>, succeeded: Oracle, m: nat, n: nat)
    requires m <= n <= |portals|
    ensures Failures(op, portals, succeeded, m) <= Failures(op, portals, succeeded, n)
    decreases n - m
  {
    if m < n {
      FailuresInCallOrder(op, portals, succeeded, m, n - 1);
    }
  }

  /** There is exactly one failure line per call that returned an error. */
  lemma {:induction false} FailureCount(op: Op, portals: seq<string>, succeeded: Oracle, n: nat)
    requires n <= |portals|
    ensures |Failures(op, portals, succeeded, n)| == |FailingCalls(op, portals, succeeded, n)|
    decreases n
  {
    if n > 0 {
      FailureCount(op, portals, succeeded, n - 1);
      var before := FailingCalls(op, portals, succeeded, n - 1);
      var now := FailingCalls(op, portals, succeeded, n);
      if succeeded(op, n - 1, portals[n - 1]) {
        assert now == before;
      } else {
        assert now == before + {n - 1};
        assert n - 1 !in before;
      }
    } else {
      assert FailingCalls(op, portals, succeeded, 0) == {};
    }
  }

  /** When every call succeeds nothing is reported as failed (a sanity
      corollary of `ReportedPortalFailed`). */
  lemma {:induction false} NoFailuresWhenAllSucceed(op: Op, portals: seq<string>, succeeded: Oracle, n: nat)
    requires n <= |portals|
    requires forall i :: 0 <= i < n ==> succeeded(op, i, portals[i])
    ensures Failures(op, portals, succeeded, n) == []
    decreases n
  {
    if n > 0 {
      NoFailuresWhenAllSucceed(op, portals, succeeded, n - 1);
    }
  }

  /** The `login` and `logout` commands. An empty portal list exits with status
      1 before any call. Otherwise every comma-separated piece, empty ones
      included, is handed to the external routine exactly once, left to right,
      whatever the earlier calls returned; the command then returns normally,
      which ends the process with status 0. */
  method PortalCommand(op: Op, portals: string, succeeded: Oracle)
    returns (status: Status, failed: seq<string>, ghost trace: seq<Call>)
    ensures portals == "" ==> status == Exit(1) && failed == [] && trace == []
    ensures portals != "" ==> status == Exit(0)
    ensures portals != "" ==> |trace| == multiset(portals)[','] + 1
    ensures portals != "" ==>
              var pieces := Split(portals, ',');
              && |trace| == |pieces|
              && (forall i :: 0 <= i < |pieces| ==> trace[i] == Call(op, pieces[i]))
              && failed == Failures(op, pieces, succeeded, |pieces|)
  {
    if portals == "" {
      return Exit(1), [], [];
    }
    var pieces := Split(portals, ',');
    SplitCount(portals, ',');
    failed := [];
    trace := [];
    var i := 0;
    while i < |pieces|
      invariant 0 <= i <= |pieces|
      invariant |trace| == i
      invariant forall j :: 0 <= j < i ==> trace[j] == Call(op, pieces[j])
      invariant failed == Failures(op, pieces, succeeded, i)
    {
      var portal := pieces[i];
      trace := trace + [Call(op, portal)];
      var ok := succeeded(op, i, portal);
      if !ok {
        failed := failed + [portal];
      }
      i := i + 1;
    }
    status := Exit(0);
  }

  /** The trace of a portal command lists its pieces, which join back into
      the `--portals` value. */
  lemma TracePortalsJoinToInput(op: Op, portals: string, trace: seq<Call>)
    requires portals != ""
    requires |trace| == |Split(portals, ',')|
    requires forall i :: 0 <= i < |trace| ==> trace[i] == Call(op, Split(portals, ',')[i])
    ensures Join(seq(|trace|, i requires 0 <= i < |trace| => trace[i].portal), ',') == portals
  {
    var pieces := seq(|trace|, i requires 0 <= i < |trace| => trace[i].portal);
    assert pieces == Split(portals, ',');
    JoinSplit(portals, ',');
  }

  /** The process entry point. Fewer than two arguments, or an unknown
      subcommand, exits with status 1 and calls nothing; `watch` never ends
      unless its flags make the flag library exit; `login` and `logout` run
      `PortalCommand` on their `--portals` value. */
  method Run(args: seq<string>, parse: FlagParser, succeeded: Oracle)
    returns (status: Status, failed: seq<string>, ghost trace: seq<Call>)
    ensures |args| < 2 ==> status == Exit(1) && trace == []
    ensures |args| >= 2 && args[1] != LoginCommand && args[1] != LogoutCommand && args[1] != WatchCommand ==>
              status == Exit(1) && trace == []
    ensures status == RunsForever <==> |args| >= 2 && args[1] == WatchCommand && parse(WatchCommand, args[2..]).Parsed?
    ensures |args| >= 2 && parse(args[1], args[2..]).FlagExit? && args[1] in {LoginCommand, LogoutCommand, WatchCommand} ==>
              status == Exit(parse(args[1], args[2..]).code) && trace == []
    ensures trace != [] ==>
              && |args| >= 2
              && (args[1] == LoginCommand || args[1] == LogoutCommand)
              && parse(args[1], args[2..]).Parsed?
              && parse(args[1], args[2..]).portals != ""
    ensures |args| >= 2 && (args[1] == LoginCommand || args[1] == LogoutCommand) && parse(args[1], args[2..]).Parsed? ==>
              var portals := parse(args[1], args[2..]).portals;
              var op := if args[1] == LoginCommand then DiscoverAndLogin else DiscoverAndLogout;
              var pieces := Split(portals, ',');
              && status == (if portals == "" then Exit(1) else Exit(0))
              && (portals != "" ==> |trace| == |pieces| && forall i :: 0 <= i < |pieces| ==> trace[i] == Call(op, pieces[i]))
              && failed == (if portals == "" then [] else Failures(op, pieces, succeeded, |pieces|))
    ensures (|args| < 2 || (args[1] != LoginCommand && args[1] != LogoutCommand) || parse(args[1], args[2..]).FlagExit?) ==>
              failed == []
  {
    if |args| < 2 {
      return Exit(1), [], [];
    }
    var command := args[1];
    if command == LoginCommand || command == LogoutCommand {
      var flags := parse(command, args[2..]);
      if flags.FlagExit? {
        return Exit(flags.code), [], [];
      }
      var op := if command == LoginCommand then DiscoverAndLogin else DiscoverAndLogout;
      status, failed, trace := PortalCommand(op, flags.portals, succeeded);
    } else if command == WatchCommand {
      var flags := parse(command, args[2..]);
      if flags.FlagExit? {
        return Exit(flags.code), [], [];
      }
      return RunsForever, [], [];
    } else {
      return Exit(1), [], [];
    }
  }
}
