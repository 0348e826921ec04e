/** The bytes of the deployment state file: what the deploy writes and how the start guard reads them. */
module DeployStateFile {
  import opened Sql
  import opened DeployGuard

  const MAX_STATE_BYTES := 256
  const STATE_KEY := "DEPLOYMENT_STATE="
  const ENVIRONMENT_KEY := "ENVIRONMENT="
  const SHA_KEY := "RELEASE_SHA="

  function Phase(state: DeploymentState): string {
    match state
    case Blocked => "blocked"
    case RestartAuthorized => "restart-authorized"
    case ReadinessPending => "readiness-pending"
  }

  /** The three lines that deploy.sh prints and the guard rebuilds. */
  function Render(state: DeploymentState, e: Environment, sha: Sha): string {
    (STATE_KEY + Phase(state)) + "\n" + ((ENVIRONMENT_KEY + e) + "\n" + ((SHA_KEY + sha) + "\n" + ""))
  }

  predicate OneLine(s: string) { '\n' !in s }

  /** Two texts that agree up to their first line break agree on the line and on what follows. */
  lemma FirstLine(a: string, b: string, x: string, y: string)
    requires OneLine(a) && OneLine(b)
    requires a + "\n" + x == b + "\n" + y
    ensures a == b && x == y
  {
    var left, right := a + "\n" + x, b + "\n" + y;
    assert left[|a|] == '\n' && right[|b|] == '\n';
    assert forall k | 0 <= k < |a| :: left[k] == a[k] && a[k] in a;
    assert forall k | 0 <= k < |b| :: right[k] == b[k] && b[k] in b;
    assert a == left[..|a|] && b == right[..|b|];
    assert x == left[|a| + 1..] && y == right[|b| + 1..];
  }

  lemma SameTail(key: string, x: string, y: string)
    requires key + x == key + y
    ensures x == y
  {
    assert x == (key + x)[|key|..] && y == (key + y)[|key|..];
  }

  lemma PhasesDiffer(s: DeploymentState, t: DeploymentState)
    ensures Phase(s) == Phase(t) <==> s == t
    ensures OneLine(STATE_KEY + Phase(s))
  {
    assert |"blocked"| == 7 && |"restart-authorized"| == 18 && |"readiness-pending"| == 17;
  }

  /** Comparing the bytes compares phase, environment and SHA: no other deployment's file reads the same. */
  lemma RenderIsInjective(s: DeploymentState, e: Environment, sha: Sha, s': DeploymentState, e': Environment, sha': Sha)
    requires OneLine(e) && OneLine(sha) && OneLine(e') && OneLine(sha')
    ensures Render(s, e, sha) == Render(s', e', sha') <==> s == s' && e == e' && sha == sha'
  {
    PhasesDiffer(s, s');
    PhasesDiffer(s', s);
    var first, first' := STATE_KEY + Phase(s), STATE_KEY + Phase(s');
    var second, second' := ENVIRONMENT_KEY + e, ENVIRONMENT_KEY + e';
    var third, third' := SHA_KEY + sha, SHA_KEY + sha';
    assert OneLine(second) && OneLine(second') && OneLine(third) && OneLine(third');
    hide Phase, OneLine;
    if Render(s, e, sha) == Render(s', e', sha') {
      FirstLine(first, first', second + "\n" + (third + "\n" + ""), second' + "\n" + (third' + "\n" + ""));
      FirstLine(second, second', third + "\n" + "", third' + "\n" + "");
      FirstLine(third, third', "", "");
      SameTail(STATE_KEY, Phase(s), Phase(s'));
      SameTail(ENVIRONMENT_KEY, e, e');
      SameTail(SHA_KEY, sha, sha');
    }
  }

  /** What fstat reports; the modification time in nanoseconds. */
  datatype Stat = Stat(size: nat, mtime: int)

  /** One read(2): at most `request` bytes from the offset, possibly fewer, none only at the end of file. */
  function Chunk(content: string, offset: nat, request: nat, short: nat): (chunk: string)
    ensures |chunk| <= request
    ensures 0 < request ==> (chunk == "" <==> |content| <= offset)
    ensures offset + |chunk| <= |content| || chunk == ""
    ensures forall i | 0 <= i < |chunk| :: chunk[i] == content[offset + i]
  {
    if |content| <= offset then ""
    else
      var available := if |content| - offset < request then |content| - offset else request;
      var taken := if 0 < short < available then short else available;
      content[offset..offset + taken]
  }

  /** Every byte was at its offset in the file at some read. */
  ghost predicate Genuine(bytes: string, contents: nat -> string) {
    forall j | 0 <= j < |bytes| :: exists i :: j < |contents(i)| && contents(i)[j] == bytes[j]
  }

  lemma GenuineGrows(bytes: string, contents: nat -> string, i: nat, request: nat, short: nat)
    requires Genuine(bytes, contents)
    ensures Genuine(bytes + Chunk(contents(i), |bytes|, request, short), contents)
  {
    var next := bytes + Chunk(contents(i), |bytes|, request, short);
    forall j | 0 <= j < |next| ensures exists k :: j < |contents(k)| && contents(k)[j] == next[j] {
      if j >= |bytes| { assert contents(i)[j] == next[j]; }
    }
  }

  ghost predicate Steady(contents: nat -> string, file: string) { forall i :: contents(i) == file }

  /** One more read of a file that does not change takes more of it, or reaches its end. */
  lemma SteadyGrows(bytes: string, contents: nat -> string, file: string, i: nat, request: nat, short: nat)
    requires Steady(contents, file) && bytes <= file && 0 < request
    ensures var chunk := Chunk(contents(i), |bytes|, request, short);
            bytes + chunk <= file && (chunk == "" ==> bytes == file)
  {
    assert contents(i) == file;
    var chunk := Chunk(file, |bytes|, request, short);
    assert chunk != "" ==> chunk == file[|bytes|..|bytes| + |chunk|];
  }

  /** The loop: until the end of the file, or one byte past the limit. */
  method ReadUpToLimit(contents: nat -> string, shorts: nat -> nat) returns (bytes: string)
    ensures |bytes| <= MAX_STATE_BYTES + 1 && Genuine(bytes, contents)
    ensures forall file | Steady(contents, file) :: bytes <= file && (|bytes| <= MAX_STATE_BYTES ==> bytes == file)
  {
    bytes := "";
    var i := 0;
    var more := true;
    while more && |bytes| <= MAX_STATE_BYTES
      invariant |bytes| <= MAX_STATE_BYTES + 1 && Genuine(bytes, contents)
      invariant forall file | Steady(contents, file) :: bytes <= file && (!more ==> bytes == file)
      decreases MAX_STATE_BYTES + 1 - |bytes|, more
    {
      var request := MAX_STATE_BYTES + 1 - |bytes|;
      var chunk := Chunk(contents(i), |bytes|, request, shorts(i));
      GenuineGrows(bytes, contents, i, request, shorts(i));
      forall file | Steady(contents, file) ensures bytes + chunk <= file && (chunk == "" ==> bytes + chunk == file) {
        SteadyGrows(bytes, contents, file, i, request, shorts(i));
      }
      hide Genuine, Steady, Chunk;
      more := chunk != "";
      bytes := bytes + chunk;
      i := i + 1;
    }
  }

  /** The file may be rewritten between reads: contents(i) is what it holds at the i-th read, and shorts(i)
      how many bytes the kernel chooses to give.  An unchanged file of at most 256 bytes is returned whole
      whatever the short reads; anything returned has the announced size and is made of bytes that were
      really at their offsets. */
  method ReadExactState(contents: nat -> string, shorts: nat -> nat, before: Stat, after: Stat, sameEntry: bool)
    returns (data: Option<string>)
    ensures data.Some? ==> |data.value| == before.size == after.size <= MAX_STATE_BYTES
    ensures data.Some? ==> before.mtime == after.mtime && sameEntry && Genuine(data.value, contents)
    ensures forall file | Steady(contents, file) ::
      data == if |file| == before.size <= MAX_STATE_BYTES && before == after && sameEntry then Some(file) else None
  {
    if before.size > MAX_STATE_BYTES { return None; }
    var bytes := ReadUpToLimit(contents, shorts);
    if |bytes| != before.size || before.size != after.size || before.mtime != after.mtime || !sameEntry {
      return None;
    }
    return Some(bytes);
  }
}
