/**
 * One run of the synchroniser: fetch the last recorded address, resolve the
 * domain, compare, rewrite the ACL file, reload the name server, record the
 * new address. Every external step is an abstract outcome; the run yields the
 * effects it had on the outside world, in order, and how the process ended.
 */
module Orchestrator {
  import opened ConfigLines
  import opened AclRewriter

  /** The query for the latest address: the IPv4 column of the rows it returned, or a database error. */
  datatype FetchOutcome = Rows(ips: seq<string>) | FetchError

  /** The name lookup of the domain: one address, or an unknown host. */
  datatype ResolveOutcome = Resolved(ip: string) | ResolveError

  /** Reading or writing the configuration file. */
  datatype IoOutcome = IoOk | IoError

  /** Launching the reload command and waiting for it. */
  datatype ReloadOutcome = ReloadOk | LaunchError | Interrupted

  /** The insert of the new address: the update count, or a database error. */
  datatype InsertOutcome = Inserted(count: int) | InsertError

  /** What each external step does in one run. */
  datatype Outcomes = Outcomes(
    fetch: FetchOutcome,
    resolve: ResolveOutcome,
    configRead: IoOutcome,
    configWrite: IoOutcome,
    reload: ReloadOutcome,
    insert: InsertOutcome)

  /** The run's effects on the outside world. */
  datatype Effect =
    | ConfigWritten(text: string)  // the configuration file now holds `text`
    | ReloadInvoked                // the reload process was launched (exec returned)
    | InsertInvoked(ip: string)    // the insert of `ip` was sent to the store
    | ConnClosed                   // the store connection was closed

  /** How the process ended. */
  datatype Status = Exit(code: int) | NormalReturn

  datatype RunResult = RunResult(trace: seq<Effect>, status: Status)

  /** The address the query reports: the first row's, or "" when there is none. */
  function LastKnownIp(rows: seq<string>): (ip: string) {
    if rows == [] then "" else rows[0]
  }

  /** The change test: exact string comparison, no normalisation. */
  predicate IpChanged(oldIp: string, newIp: string) {
    oldIp != newIp
  }

  /** The abort path: close the connection, then exit with status 1. */
  function Abort(done: seq<Effect>): (r: RunResult) {
    RunResult(done + [ConnClosed], Exit(1))
  }

  /** The file contents after the effects in `trace`, starting from `before`. */
  function ConfigAfter(trace: seq<Effect>, before: string): (text: string)
    decreases |trace|
  {
    if trace == [] then before
    else ConfigAfter(trace[1..], if trace[0].ConfigWritten? then trace[0].text else before)
  }

  /** Effects that write nothing leave the file as it was. */
  lemma {:induction false} ConfigAfterUnwritten(trace: seq<Effect>, before: string)
    requires forall i :: 0 <= i < |trace| ==> !trace[i].ConfigWritten?
    ensures ConfigAfter(trace, before) == before
    decreases |trace|
  {
    if trace != [] {
      ConfigAfterUnwritten(trace[1..], before);
    }
  }

  /** After a write followed only by effects that write nothing, the file holds what was written. */
  lemma WrittenThenUnwritten(text: string, rest: seq<Effect>, before: string)
    requires forall i :: 0 <= i < |rest| ==> !rest[i].ConfigWritten?
    ensures ConfigAfter([ConfigWritten(text)] + rest, before) == text
  {
    assert ([ConfigWritten(text)] + rest)[1..] == rest;
    ConfigAfterUnwritten(rest, text);
  }

  /** One run, against the configuration file contents `config`. */
  function Run(o: Outcomes, config: string): (r: RunResult)
    // an abort always exits with 1; every other end is a normal return
    ensures r.status == NormalReturn || r.status == Exit(1)
    // when the connection is closed it is closed once, as the last effect
    ensures r.trace != [] ==> r.trace[|r.trace| - 1] == ConnClosed
    ensures forall i :: 0 <= i < |r.trace| - 1 ==> r.trace[i] != ConnClosed
    // a run with no effects is a normal return
    ensures r.trace == [] ==> r.status == NormalReturn
    // a run that exits never inserts
    ensures r.status.Exit? ==> forall i :: 0 <= i < |r.trace| ==> !r.trace[i].InsertInvoked?
    // the reload follows the write, the insert follows a reload that completed
    ensures forall i :: 0 <= i < |r.trace| && r.trace[i] == ReloadInvoked ==>
      0 < i && r.trace[i - 1].ConfigWritten?
    ensures forall i :: 0 <= i < |r.trace| && r.trace[i].InsertInvoked? ==>
      0 < i && r.trace[i - 1] == ReloadInvoked && o.reload == ReloadOk
  {
    match o.fetch
    case FetchError => Abort([])
    case Rows(ips) =>
      var oldIp := LastKnownIp(ips);
      match o.resolve
      case ResolveError => Abort([])
      case Resolved(newIp) =>
        if !IpChanged(oldIp, newIp) then RunResult([], NormalReturn)
        else if o.configRead == IoError || o.configWrite == IoError then Abort([])
        else
          var written := [ConfigWritten(RewriteConfig(config, newIp))];
          match o.reload
          case LaunchError => Abort(written)
          case Interrupted => Abort(written + [ReloadInvoked])
          case ReloadOk => RunResult(written + [ReloadInvoked, InsertInvoked(newIp), ConnClosed], NormalReturn)
  }

  /** With no row, the old address is "", so only an empty new address counts as unchanged. */
  lemma NoRowChangeTest(newIp: string)
    ensures IpChanged(LastKnownIp([]), newIp) <==> newIp != ""
  {
  }

  /** The change test gates every effect: a run has effects iff the address changed. */
  lemma ChangeGate(o: Outcomes, config: string)
    requires o.fetch.Rows? && o.resolve.Resolved?
    ensures Run(o, config).trace != [] <==> IpChanged(LastKnownIp(o.fetch.ips), o.resolve.ip)
  {
  }

  /** Unchanged address: no write, no reload, no insert, no close, normal return. */
  lemma UnchangedPath(o: Outcomes, config: string)
    requires o.fetch.Rows? && o.resolve.Resolved?
    requires !IpChanged(LastKnownIp(o.fetch.ips), o.resolve.ip)
    ensures Run(o, config) == RunResult([], NormalReturn)
  {
  }

  /**
   * A failed fetch, a failed lookup, or a failed read or write of the
   * configuration file closes the connection and exits with 1 before the
   * file is written, the reload is started or anything is inserted.
   */
  lemma EarlyFailuresAbort(o: Outcomes, config: string)
    requires
      || o.fetch == FetchError
      || (o.fetch.Rows? && o.resolve == ResolveError)
      || (o.fetch.Rows? && o.resolve.Resolved? && IpChanged(LastKnownIp(o.fetch.ips), o.resolve.ip)
          && (o.configRead == IoError || o.configWrite == IoError))
    ensures Run(o, config) == RunResult([ConnClosed], Exit(1))
  {
  }

  /**
   * A reload command that cannot be launched exits with 1 after the file was
   * written; no reload process exists and nothing is inserted.
   */
  lemma LaunchFailureAbort(o: Outcomes, config: string)
    requires o.fetch.Rows? && o.resolve.Resolved?
    requires IpChanged(LastKnownIp(o.fetch.ips), o.resolve.ip)
    requires o.configRead == IoOk && o.configWrite == IoOk && o.reload == LaunchError
    ensures Run(o, config) ==
      RunResult([ConfigWritten(RewriteConfig(config, o.resolve.ip)), ConnClosed], Exit(1))
  {
  }

  /**
   * A reload process whose wait is interrupted is destroyed, and the run exits
   * with 1 after the file was written and the process launched, without inserting.
   */
  lemma InterruptedReloadAbort(o: Outcomes, config: string)
    requires o.fetch.Rows? && o.resolve.Resolved?
    requires IpChanged(LastKnownIp(o.fetch.ips), o.resolve.ip)
    requires o.configRead == IoOk && o.configWrite == IoOk && o.reload == Interrupted
    ensures Run(o, config) ==
      RunResult([ConfigWritten(RewriteConfig(config, o.resolve.ip)), ReloadInvoked, ConnClosed], Exit(1))
  {
  }

  /**
   * The full path: the file gets the rewritten ACL, the reload runs, the new
   * address is inserted, the connection is closed, and the run returns
   * normally whatever the insert's outcome.
   */
  lemma CommitPath(o: Outcomes, config: string)
    requires o.fetch.Rows? && o.resolve.Resolved?
    requires IpChanged(LastKnownIp(o.fetch.ips), o.resolve.ip)
    requires o.configRead == IoOk && o.configWrite == IoOk && o.reload == ReloadOk
    ensures Run(o, config) == RunResult(
      [ConfigWritten(RewriteConfig(config, o.resolve.ip)), ReloadInvoked,
       InsertInvoked(o.resolve.ip), ConnClosed],
      NormalReturn)
  {
  }

  /** A failed insert is only logged: the run's effects and status do not depend on it. */
  lemma InsertFailureIsSoft(o: Outcomes, config: string, insert: InsertOutcome)
    ensures Run(o.(insert := insert), config) == Run(o, config)
  {
  }

  /**
   * A run whose reload failed leaves the rewritten file behind, and that file
   * is indistinguishable from the original for any later run, whatever
   * outcomes it meets and whatever address it resolves.
   */
  lemma RetryAfterReloadFailure(o: Outcomes, retry: Outcomes, config: string)
    requires o.fetch.Rows? && o.resolve.Resolved? && NoNewline(o.resolve.ip)
    requires IpChanged(LastKnownIp(o.fetch.ips), o.resolve.ip)
    requires o.configRead == IoOk && o.configWrite == IoOk && o.reload != ReloadOk
    ensures var first := ConfigAfter(Run(o, config).trace, config);
      && first == RewriteConfig(config, o.resolve.ip)
      && Run(retry, first) == Run(retry, config)
  {
    var ip := o.resolve.ip;
    var text := RewriteConfig(config, ip);
    var trace := Run(o, config).trace;
    assert trace == [ConfigWritten(text)] + trace[1..];
    WrittenThenUnwritten(text, trace[1..], config);
    if retry.resolve.Resolved? {
      RewriteConfigLastWins(config, ip, retry.resolve.ip);
    }
  }

  /**
   * After a run that wrote the file, reading it back gives, after every marker
   * the loop tests, the line naming the new address.
   */
  lemma WrittenFileNamesNewIp(o: Outcomes, config: string, k: nat)
    requires o.fetch.Rows? && o.resolve.Resolved? && NoNewline(o.resolve.ip)
    requires IpChanged(LastKnownIp(o.fetch.ips), o.resolve.ip)
    requires o.configRead == IoOk && o.configWrite == IoOk
    requires k < |SplitLines(config)| && Tested(SplitLines(config), k) && SplitLines(config)[k] == Marker
    ensures var written := SplitLines(ConfigAfter(Run(o, config).trace, config));
      k + 1 < |written| && written[k] == Marker && written[k + 1] == AddressLine(o.resolve.ip)
  {
    var ip := o.resolve.ip;
    var text := RewriteConfig(config, ip);
    var trace := Run(o, config).trace;
    assert trace == [ConfigWritten(text)] + trace[1..];
    WrittenThenUnwritten(text, trace[1..], config);
    RewrittenConfigLines(config, ip);
    MarkerFollowedByAddress(SplitLines(config), ip, k);
  }

  /** Whether the process is still running or has called `System.exit`. */
  datatype ProcessState = Running | Exited(code: int)

  /** A run of the process: the static connection, the file on disk, and what has happened so far. */
  class Program {
    var connectionOpen: bool
    var configFile: string
    var effects: seq<Effect>
    var state: ProcessState

    /** The process after a successful connect, with the configuration file as it is on disk. */
    constructor (config: string)
      ensures connectionOpen && configFile == config && effects == [] && state == Running
    {
      connectionOpen := true;
      configFile := config;
      effects := [];
      state := Running;
    }

    /** How the process ended, once `Execute` is done. */
    function ExitStatus(): Status
      reads this
    {
      if state.Exited? then Exit(state.code) else NormalReturn
    }

    /** Close the connection (a failure to close is only logged), then exit with 1 if asked. */
    method CloseDbConn(exit: bool)
      requires state == Running
      modifies this
      ensures !connectionOpen && configFile == old(configFile)
      ensures effects == old(effects) + [ConnClosed]
      ensures state == if exit then Exited(1) else Running
    {
      connectionOpen := false;
      effects := effects + [ConnClosed];
      if exit {
        state := Exited(1);
      }
    }

    /** The run proper; after `CloseDbConn(true)` nothing further happens. */
    method Execute(o: Outcomes)
      requires connectionOpen && effects == [] && state == Running
      modifies this
      ensures effects == Run(o, old(configFile)).trace
      ensures ExitStatus() == Run(o, old(configFile)).status
      ensures configFile == ConfigAfter(effects, old(configFile))
      ensures connectionOpen <==> effects == []
    {
      var oldIp := "";
      match o.fetch {
        case FetchError =>
          CloseDbConn(true);
          EarlyFailuresAbort(o, old(configFile));
          return;
        case Rows(ips) =>
          if |ips| > 0 {
            oldIp := ips[0];
          }
      }
      if o.resolve == ResolveError {
        CloseDbConn(true);
        EarlyFailuresAbort(o, old(configFile));
        return;
      }
      var newIp := o.resolve.ip;
      if oldIp != newIp {
        if o.configRead == IoError {
          CloseDbConn(true);
          EarlyFailuresAbort(o, old(configFile));
          return;
        }
        var lines := ReadAndRewrite(SplitLines(configFile), newIp);
        var text := WriteBack(lines);
        if o.configWrite == IoError {
          CloseDbConn(true);
          EarlyFailuresAbort(o, old(configFile));
          return;
        }
        configFile := text;
        effects := effects + [ConfigWritten(text)];
        if o.reload == LaunchError {
          // exec threw: no reload process exists
          CloseDbConn(true);
          LaunchFailureAbort(o, old(configFile));
          WrittenThenUnwritten(text, [ConnClosed], old(configFile));
          return;
        }
        effects := effects + [ReloadInvoked];
        if o.reload == Interrupted {
          // the wait was interrupted: the process is destroyed
          CloseDbConn(true);
          InterruptedReloadAbort(o, old(configFile));
          WrittenThenUnwritten(text, [ReloadInvoked, ConnClosed], old(configFile));
          return;
        }
        // the insert's outcome is only logged
        effects := effects + [InsertInvoked(newIp)];
        CloseDbConn(false);
        CommitPath(o, old(configFile));
        WrittenThenUnwritten(text, [ReloadInvoked, InsertInvoked(newIp), ConnClosed], old(configFile));
      } else {
        UnchangedPath(o, old(configFile));
      }
    }
  }
}
