# bind_allow_network — a Dafny model of the update run

`bind_allow_network` keeps the access list of a BIND name server in step with
a dynamic-DNS host name. One invocation of `Main.main` fetches the address it
recorded last from a database table, resolves the configured domain, and, if
the address changed, rewrites the `acl "heathcliff26" {` stanza of
`/etc/bind/named.conf.options`, runs `/etc/init.d/bind9 reload` and inserts the
new address into the table. Any failure along the way closes the database
connection and exits with status 1, except a failed insert, which is only
logged.

The model has three modules, one file each:

- `ConfigLines` (`config_lines.dfy`): the file as text and as lines. `SplitLines`
  is what the line reader yields (terminator `'\n'`), `Serialized` is what the
  write-back produces (every line followed by a newline), `WriteBack` is the
  write-back loop, proved equal to `Serialized`. Reading back what was written
  gives the same lines, and writing back what was read gives the same text up to
  a missing final newline.
- `AclRewriter` (`acl_rewriter.dfy`): the read loop. `ReadAndRewrite` is the
  `while ((line = br.readLine()) != null)` loop over the lines the reader yields,
  proved equal to the function `Rewrite`. `Tested` is an independent description
  of which lines the loop compares with the marker (every line except the one read
  and dropped right after a tested marker). The lemmas state locality line by
  line, marker after marker, the no-marker case, the extra line for a trailing
  marker, and that a second rewrite with the same address changes nothing (with
  another address, the last one wins), both on lines and on the file text.
- `Orchestrator` (`orchestrator.dfy`): the run. Each external step is an abstract
  outcome (`Outcomes`); `Run` maps the outcomes and the file contents to the
  effects on the outside world (`ConfigWritten`, `ReloadInvoked` once the reload
  process was launched, `InsertInvoked`, `ConnClosed`, in order) and the end (`Exit(1)` or `NormalReturn`). Its own
  contract states the ordering guarantees; lemmas give each path. The class
  `Program` holds what the process changes (the static connection, the file on
  disk, the effects so far, whether it exited); `Program.Execute` is the body of
  `main` from line 83 on, calling `ReadAndRewrite` and `WriteBack`, and
  `Program.CloseDbConn` is `closeDBConn`, where `System.exit(1)` ends the run.
  `Execute` is proved to produce exactly the effects, status and file contents
  that `Run` gives.

Behaviour of the code worth noting:

- Every marker the loop tests is acted on, not just the first one; a line
  consumed as the replaced line is not itself tested (`[M, M, x]` gives
  `[M, "\t<ip>;", x]`).
- A marker on the last line still gets the address line appended: the extra
  `readLine` returns null and is dropped.
- A failed fetch of the old address ends the run at once: `closeDBConn(true)`
  calls `System.exit(1)`, so the lookup is never attempted.
- On the unchanged path the connection is not closed; the run just returns.
- The file is written back even when it has no marker; a last line without a
  terminator then gains one.

## Model

| member | source | states |
|---|---|---|
| ConfigLines.SplitLines | src/de/heathcliff/bind_allow_network/Main.java:116-127 | no line the reader yields contains the line terminator |
| ConfigLines.WriteBack | src/de/heathcliff/bind_allow_network/Main.java:129-135 | the text written is every collected line, in order, each followed by a newline (`Serialized`) |
| ConfigLines.SplitSerialized | src/de/heathcliff/bind_allow_network/Main.java:119-135 | reading back the written text yields exactly the lines that were written, when no line contains a newline |
| ConfigLines.SerializedSplit | src/de/heathcliff/bind_allow_network/Main.java:119-135 | writing back the lines read from a text reproduces it when it is empty or ends with a newline, and otherwise appends the one missing newline |
| AclRewriter.AddressLine | src/de/heathcliff/bind_allow_network/Main.java:122-125 | the emitted line `\t<ip>;` can never equal the marker, and has no newline when the address has none |
| AclRewriter.ReadAndRewrite | src/de/heathcliff/bind_allow_network/Main.java:112-127 | the loop collects exactly `Rewrite(input, ip)`: each line kept, and after each tested marker the next line dropped and `\t<ip>;` added |
| AclRewriter.RewriteLocality | src/de/heathcliff/bind_allow_network/Main.java:119-127 | output length is the input length, plus one exactly when the last line is a tested marker; each tested line is copied at its own position; each untested line becomes the address line; the extra line is the address line |
| AclRewriter.MarkerFollowedByAddress | src/de/heathcliff/bind_allow_network/Main.java:122-125 | every tested marker stays at its position and is immediately followed by the address line, whether or not it had a successor |
| AclRewriter.UntestedFollowsMarker | src/de/heathcliff/bind_allow_network/Main.java:119-123 | a line escapes the marker test iff it immediately follows a tested marker |
| AclRewriter.MarkerAfterMarker | src/de/heathcliff/bind_allow_network/Main.java:119-126 | `[M, M, x]` becomes `[M, "\t<ip>;", x]` and `[M, M, M]` becomes `[M, "\t<ip>;", M, "\t<ip>;"]`: the second marker is the consumed line, the third is tested again |
| AclRewriter.RewriteWithoutMarker | src/de/heathcliff/bind_allow_network/Main.java:119-127 | with no marker line the collected lines equal the input |
| AclRewriter.RewriteLinesFrom | src/de/heathcliff/bind_allow_network/Main.java:119-127 | every output line is an input line or the address line |
| AclRewriter.LastRewriteWins | src/de/heathcliff/bind_allow_network/Main.java:119-127 | rewriting a rewritten document with a second address equals rewriting the original with the second address |
| AclRewriter.RewriteIdempotent | src/de/heathcliff/bind_allow_network/Main.java:119-127 | rewriting twice with the same address gives the same lines as rewriting once |
| AclRewriter.RewrittenConfigLines | src/de/heathcliff/bind_allow_network/Main.java:112-135 | reading the written file back gives exactly the rewritten lines of the original file |
| AclRewriter.RewriteConfigLastWins | src/de/heathcliff/bind_allow_network/Main.java:112-135 | on the file text, a rewrite of a rewritten file equals one rewrite with the later address; with the same address the file is unchanged |
| AclRewriter.RewriteConfigWithoutMarker | src/de/heathcliff/bind_allow_network/Main.java:112-135 | a file without the marker is written back character for character, except that a final unterminated line gains a newline |
| Orchestrator.Run | src/de/heathcliff/bind_allow_network/Main.java:83-181 | status is `Exit(1)` or a normal return; the connection is closed at most once and as the last effect; a run without effects returns normally; an exiting run never inserts; a reload always follows a file write; an insert always follows a reload that completed |
| Orchestrator.NoRowChangeTest | src/de/heathcliff/bind_allow_network/Main.java:84-90 | with no row the old address is `""`, so the change test holds iff the new address is not empty |
| Orchestrator.ChangeGate | src/de/heathcliff/bind_allow_network/Main.java:109 | after a successful fetch and lookup, the run has any effect iff the old and new addresses differ as strings |
| Orchestrator.UnchangedPath | src/de/heathcliff/bind_allow_network/Main.java:179-181 | equal addresses: no write, no reload, no insert, no close, normal return |
| Orchestrator.EarlyFailuresAbort | src/de/heathcliff/bind_allow_network/Main.java:91-142 | a failed fetch, lookup, file read or file write closes the connection and exits with 1, with nothing written, reloaded or inserted |
| Orchestrator.LaunchFailureAbort | src/de/heathcliff/bind_allow_network/Main.java:145-152 | a reload command that cannot be launched exits with 1 after the file was written, with no reload process and no insert |
| Orchestrator.InterruptedReloadAbort | src/de/heathcliff/bind_allow_network/Main.java:145-164 | an interrupted wait for the launched reload exits with 1 after the file was written and the process launched, with no insert |
| Orchestrator.CommitPath | src/de/heathcliff/bind_allow_network/Main.java:109-178 | a changed address with every step succeeding writes the rewritten file, reloads, inserts the new address, closes the connection and returns normally |
| Orchestrator.InsertFailureIsSoft | src/de/heathcliff/bind_allow_network/Main.java:166-178 | the insert's outcome (any count or an error) does not change the effects or the status |
| Orchestrator.RetryAfterReloadFailure | src/de/heathcliff/bind_allow_network/Main.java:145-178 | after a failed reload the file holds the rewritten text, and every later run, whatever its outcomes and resolved address, has exactly the effects it would have from the original file (that no insert was made is stated by LaunchFailureAbort and InterruptedReloadAbort) |
| Orchestrator.WrittenFileNamesNewIp | src/de/heathcliff/bind_allow_network/Main.java:109-135 | after a run that writes the file, every marker the loop tests is followed in the file by `\t<new ip>;` |
| Orchestrator.Program.constructor | src/de/heathcliff/bind_allow_network/Main.java:35-76 | the process starts running, with the connection open, no effects yet and the configuration file as on disk |
| Orchestrator.Program.CloseDbConn | src/de/heathcliff/bind_allow_network/Main.java:198-208 | the connection is closed and `ConnClosed` recorded; with `exit` the process is in the exited-with-1 state |
| Orchestrator.Program.Execute | src/de/heathcliff/bind_allow_network/Main.java:83-181 | the effects, the exit status and the file contents after the run are exactly those `Run` gives; the connection is still open iff the run had no effects |

## Left out

- Logger and file-handler setup, property loading and `setLogLevel` (lines 38-72, 184-196): start-up plumbing, and log messages are not effects in the model.
- Opening the database connection (lines 75-81): `Program.constructor` starts from a connection that is open; a failure to connect happens before the run.
- SQL semantics of the query and the insert: both are abstract outcomes. The query's rows are given as a sequence of addresses (the first is used, as `result.next()` does).
- A NULL in the address column (which would make `old_ip.equals` throw at line 109): the program itself only ever inserts non-null addresses.
- Name resolution (`InetAddress.getByName`): an abstract `Resolved(ip)` or `ResolveError`.
- Process execution and `destroy`: only the outcome (completed, launch error, interrupted) is modelled; the reload command's exit code is not inspected by the code, so it is not modelled either.
- A failure of `connection.close()` is only logged; `CloseDbConn` records the close either way.
- `System.exit` is a terminal `Exited(1)` state; shutdown hooks and `finally` blocks skipped by exit are not modelled.
- ConfigLines.SplitLines: `readLine` also ends lines at `'\r'` and `"\r\n"`; the model splits at `'\n'` only, and the platform line separator of `newLine` is taken to be `'\n'`.
- RewriteConfigWithoutMarker: the equality is of decoded characters; `FileReader` and `FileWriter` decode and encode with the platform default charset (malformed input replaced on decoding), which is not modelled, so nothing is promised about bytes.
- Charset decoding at `FileReader` (line 116) and encoding at `FileWriter` (line 129): the file is modelled as a sequence of characters.
- A configuration write that fails is modelled as leaving the file as it was; a partially written or truncated file after a mid-way failure is not modelled.
