/**
 * The rewrite of the name server's ACL stanza: every line that the read loop
 * tests and finds equal to the marker is kept, the line after it is read and
 * dropped, and the address line `\t<ip>;` is emitted in its place.
 */
module AclRewriter {
  import opened ConfigLines

  /** The line that opens the ACL stanza the program maintains. */
  const Marker: string := "acl \"heathcliff26\" {"

  /** The line emitted after each marker. */
  function AddressLine(ip: string): (line: string)
    ensures line != Marker
    ensures NoNewline(ip) ==> NoNewline(line)
  {
    var line := "\t" + ip + ";";
    assert line[0] != Marker[0];
    line
  }

  /**
   * The lines collected by the read loop, one loop iteration per case:
   * a line other than the marker is kept; the marker is kept, the next line
   * (if any) is consumed unseen, and the address line is added.
   */
  function Rewrite(lines: seq<string>, ip: string): (out: seq<string>)
    decreases |lines|
  {
    if lines == [] then []
    else if lines[0] != Marker then [lines[0]] + Rewrite(lines[1..], ip)
    else if |lines| == 1 then [Marker, AddressLine(ip)]
    else [Marker, AddressLine(ip)] + Rewrite(lines[2..], ip)
  }

  /**
   * Whether line `k` is read by the loop condition and compared with the
   * marker. The only lines that are not are those read and discarded
   * right after a tested marker.
   */
  predicate Tested(lines: seq<string>, k: nat)
    requires k < |lines|
  {
    k == 0 || !(Tested(lines, k - 1) && lines[k - 1] == Marker)
  }

  /** The last line is a tested marker, so there is no line left to replace. */
  predicate TrailingMarker(lines: seq<string>) {
    |lines| > 0 && Tested(lines, |lines| - 1) && lines[|lines| - 1] == Marker
  }

  /** The read loop over the lines the reader yields, and the lines it collects. */
  method ReadAndRewrite(input: seq<string>, newIp: string) returns (lines: seq<string>)
    ensures lines == Rewrite(input, newIp)
  {
    lines := [];
    var i := 0;
    while i < |input|
      invariant i <= |input|
      invariant lines + Rewrite(input[i..], newIp) == Rewrite(input, newIp)
    {
      var rest := input[i..];
      var line := input[i];
      i := i + 1;
      lines := lines + [line];
      if line == Marker {
        if i < |input| {
          // the next line is read and dropped
          assert rest[2..] == input[i + 1..];
          i := i + 1;
        }
        lines := lines + [AddressLine(newIp)];
      } else {
        assert rest[1..] == input[i..];
      }
    }
    assert input[i..] == [];
  }

  /** Testing starts over after a tested line that does not consume its successor. */
  lemma {:induction false} TestedShift(lines: seq<string>, d: nat, k: nat)
    requires 0 < d && d + k < |lines| && Tested(lines, d)
    ensures Tested(lines, d + k) == Tested(lines[d..], k)
    decreases k
  {
    if k > 0 {
      TestedShift(lines, d, k - 1);
    }
  }

  /**
   * `out` is what the read loop emits for `lines`: one line per input line,
   * plus one when the last line is a tested marker; a tested line is copied
   * unchanged at its own position, an untested line (the one after a tested
   * marker) becomes the address line, and the extra line is the address line.
   */
  ghost predicate LocalImage(lines: seq<string>, out: seq<string>, ip: string) {
    && |out| == |lines| + (if TrailingMarker(lines) then 1 else 0)
    && (forall k :: 0 <= k < |lines| ==>
          out[k] == if Tested(lines, k) then lines[k] else AddressLine(ip))
    && (TrailingMarker(lines) ==> out[|lines|] == AddressLine(ip))
  }

  /** Locality of the rewrite, stated line by line. */
  lemma {:induction false} RewriteLocality(lines: seq<string>, ip: string)
    ensures LocalImage(lines, Rewrite(lines, ip), ip)
    decreases |lines|
  {
    if lines != [] && !(lines[0] == Marker && |lines| == 1) {
      var d := if lines[0] == Marker then 2 else 1;
      RewriteLocality(lines[d..], ip);
      LocalImageStep(lines, ip, d, Rewrite(lines[d..], ip));
      assert Rewrite(lines, ip) == EmittedBy(lines, ip, d) + Rewrite(lines[d..], ip);
    }
  }

  /** What one loop iteration that reads `d` lines emits. */
  function EmittedBy(lines: seq<string>, ip: string, d: nat): (out: seq<string>)
    requires 0 < |lines|
  {
    if d == 1 then [lines[0]] else [Marker, AddressLine(ip)]
  }

  /** The inductive step of RewriteLocality: one loop iteration that reads `d` lines. */
  lemma LocalImageStep(lines: seq<string>, ip: string, d: nat, tail: seq<string>)
    requires d == 1 || d == 2
    requires d <= |lines|
    requires lines[0] == Marker <==> d == 2
    requires LocalImage(lines[d..], tail, ip)
    ensures LocalImage(lines, EmittedBy(lines, ip, d) + tail, ip)
  {
    var r := EmittedBy(lines, ip, d) + tail;
    TrailingShift(lines, d);
    if d == 2 {
      assert !Tested(lines, 1);
    }
    forall k | d <= k < |lines|
      ensures r[k] == if Tested(lines, k) then lines[k] else AddressLine(ip)
    {
      assert r[k] == tail[k - d];
      TailLine(lines, ip, d, tail, k);
    }
  }

  /** A position after the first iteration keeps what the rest of the loop emits there. */
  lemma TailLine(lines: seq<string>, ip: string, d: nat, tail: seq<string>, k: nat)
    requires 0 < d <= k < |lines| && Tested(lines, d) && k - d < |tail|
    requires tail[k - d] == if Tested(lines[d..], k - d) then lines[d..][k - d] else AddressLine(ip)
    ensures tail[k - d] == if Tested(lines, k) then lines[k] else AddressLine(ip)
  {
    TestedShift(lines, d, k - d);
  }

  /** Whether the last line is a trailing marker is decided after the first iteration. */
  lemma TrailingShift(lines: seq<string>, d: nat)
    requires d == 1 || d == 2
    requires d <= |lines|
    requires lines[0] == Marker <==> d == 2
    ensures TrailingMarker(lines) == TrailingMarker(lines[d..])
  {
    if d == 2 {
      assert !Tested(lines, 1);
    }
    if d < |lines| {
      TestedShift(lines, d, |lines| - 1 - d);
    }
  }

  /**
   * Every marker that the loop tests is kept at its position and is
   * immediately followed by the address line, whether or not a line
   * follows it in the input.
   */
  lemma MarkerFollowedByAddress(lines: seq<string>, ip: string, k: nat)
    requires k < |lines| && Tested(lines, k) && lines[k] == Marker
    ensures k + 1 < |Rewrite(lines, ip)|
    ensures Rewrite(lines, ip)[k] == Marker && Rewrite(lines, ip)[k + 1] == AddressLine(ip)
  {
    RewriteLocality(lines, ip);
    if k + 1 < |lines| {
      assert !Tested(lines, k + 1);
    }
  }

  /** A line that the loop does not test is exactly one that follows a tested marker. */
  lemma UntestedFollowsMarker(lines: seq<string>, k: nat)
    requires k < |lines|
    ensures !Tested(lines, k) <==> k > 0 && Tested(lines, k - 1) && lines[k - 1] == Marker
  {
  }

  /** Marker after marker: the second marker is the consumed line and is replaced. */
  lemma MarkerAfterMarker(x: string, ip: string)
    requires x != Marker
    ensures Rewrite([Marker, Marker, x], ip) == [Marker, AddressLine(ip), x]
    ensures Rewrite([Marker, Marker, Marker], ip) == [Marker, AddressLine(ip), Marker, AddressLine(ip)]
  {
    assert [Marker, Marker, x][2..] == [x];
    assert Rewrite([x], ip) == [x] + Rewrite([x][1..], ip);
    assert [Marker, Marker, Marker][2..] == [Marker];
  }

  /** Without a marker line the rewrite changes nothing. */
  lemma {:induction false} RewriteWithoutMarker(lines: seq<string>, ip: string)
    requires Marker !in lines
    ensures Rewrite(lines, ip) == lines
    decreases |lines|
  {
    if lines != [] {
      assert Marker !in lines[1..];
      RewriteWithoutMarker(lines[1..], ip);
    }
  }

  /** Every output line is an input line or the address line. */
  lemma {:induction false} RewriteLinesFrom(lines: seq<string>, ip: string)
    ensures forall l :: l in Rewrite(lines, ip) ==> l in lines || l == AddressLine(ip)
    decreases |lines|
  {
    if lines != [] {
      var d := if lines[0] == Marker && |lines| > 1 then 2 else 1;
      RewriteLinesFrom(lines[d..], ip);
      forall l | l in lines[d..] ensures l in lines {
        var j :| 0 <= j < |lines[d..]| && lines[d..][j] == l;
        assert lines[d + j] == l;
      }
    }
  }

  /**
   * Rewriting an already rewritten document with a new address gives what
   * rewriting the original with that address gives: the last address wins.
   */
  lemma {:induction false} LastRewriteWins(lines: seq<string>, ip1: string, ip2: string)
    ensures Rewrite(Rewrite(lines, ip1), ip2) == Rewrite(lines, ip2)
    decreases |lines|
  {
    var once := Rewrite(lines, ip1);
    if lines == [] {
    } else if lines[0] != Marker {
      LastRewriteWins(lines[1..], ip1, ip2);
      assert once[1..] == Rewrite(lines[1..], ip1);
    } else if |lines| == 1 {
      assert once[2..] == [];
    } else {
      LastRewriteWins(lines[2..], ip1, ip2);
      assert once[2..] == Rewrite(lines[2..], ip1);
    }
  }

  /** Rewriting twice with the same address is rewriting once. */
  lemma {:induction false} RewriteIdempotent(lines: seq<string>, ip: string)
    ensures Rewrite(Rewrite(lines, ip), ip) == Rewrite(lines, ip)
  {
    LastRewriteWins(lines, ip, ip);
  }

  /** The whole file operation: read the lines, rewrite them, write them back. */
  function RewriteConfig(text: string, ip: string): (written: string)
  {
    Serialized(Rewrite(SplitLines(text), ip))
  }

  /** The lines of a rewritten file are those the rewrite produced. */
  lemma RewrittenConfigLines(text: string, ip: string)
    requires NoNewline(ip)
    ensures SplitLines(RewriteConfig(text, ip)) == Rewrite(SplitLines(text), ip)
  {
    var lines := SplitLines(text);
    var out := Rewrite(lines, ip);
    RewriteLinesFrom(lines, ip);
    forall k | 0 <= k < |out| ensures NoNewline(out[k]) {
      assert out[k] in out;
    }
    SplitSerialized(out);
  }

  /**
   * Rewriting a rewritten file with a new address gives the file that one
   * rewrite with that address gives; with the same address, the same file.
   */
  lemma RewriteConfigLastWins(text: string, ip1: string, ip2: string)
    requires NoNewline(ip1)
    ensures RewriteConfig(RewriteConfig(text, ip1), ip2) == RewriteConfig(text, ip2)
  {
    RewrittenConfigLines(text, ip1);
    LastRewriteWins(SplitLines(text), ip1, ip2);
  }

  /**
   * A file without the marker line is written back character for character, except that
   * a last line without a terminator gets one.
   */
  lemma RewriteConfigWithoutMarker(text: string, ip: string)
    requires Marker !in SplitLines(text)
    ensures RewriteConfig(text, ip) == Terminated(text)
  {
    RewriteWithoutMarker(SplitLines(text), ip);
    SerializedSplit(text);
  }
}
