/** The migration checkpoint runner: one allowlisted step along the revision graph at a time. */
module Checkpoints {
  import opened Sql
  import opened Text

  type Revision = string

  // ---------- the policy file ----------

  predicate Alphanumeric(c: char) { '0' <= c <= '9' || 'A' <= c <= 'Z' || 'a' <= c <= 'z' }

  /** A literal revision identifier: no symbolic name, no relative or partial syntax. */
  predicate Literal(r: Revision) {
    && 1 <= |r| <= 128 && Alphanumeric(r[0])
    && (forall i | 0 <= i < |r| :: Alphanumeric(r[i]) || r[i] == '_')
    && Lower(r) != "base" && Lower(r) != "head" && Lower(r) != "heads"
  }

  /** The literal identifiers: up to 128 ASCII letters, digits and underscores, the first no underscore, and not
      base, head or heads in any case. */
  lemma LiteralIsExact(r: Revision)
    ensures Literal(r) <==>
      && 0 < |r| < 129 && r[0] != '_'
      && (forall i | 0 <= i < |r| ::
            var code := r[i] as int; 47 < code < 58 || 64 < code < 91 || 96 < code < 123 || code == 95)
      && !(|r| == 4 && r[0] in "bB" && r[1] in "aA" && r[2] in "sS" && r[3] in "eE")
      && !(|r| in {4, 5} && r[0] in "hH" && r[1] in "eE" && r[2] in "aA" && r[3] in "dD" && (|r| == 5 ==> r[4] in "sS"))
  {
    NotSymbolic(r);
  }

  lemma NotSymbolic(r: Revision)
    ensures Lower(r) == "base" <==> |r| == 4 && r[0] in "bB" && r[1] in "aA" && r[2] in "sS" && r[3] in "eE"
    ensures Lower(r) == "head" <==> |r| == 4 && r[0] in "hH" && r[1] in "eE" && r[2] in "aA" && r[3] in "dD"
    ensures Lower(r) == "heads" <==>
              |r| == 5 && r[0] in "hH" && r[1] in "eE" && r[2] in "aA" && r[3] in "dD" && r[4] in "sS"
  {
    var l := Lower(r);
    if |r| == 4 { assert l == [l[0], l[1], l[2], l[3]]; }
    if |r| == 5 { assert l == [l[0], l[1], l[2], l[3], l[4]]; }
  }

  type Transition = (Revision, Revision)

  datatype Line = Skipped | Malformed | NotLiteral | Allows(transition: Transition)

  function Classify(raw: string): Line {
    var line := Strip(raw);
    if line == "" || line[0] == '#' then Skipped
    else
      var fields := Split(line, '\t');
      if |fields| != 2 then Malformed
      else
        var from, to := Strip(fields[0]), Strip(fields[1]);
        if Literal(from) && Literal(to) then Allows((from, to)) else NotLiteral
  }

  datatype PolicyError = InvalidLine(number: nat) | NotLiteralIds | Duplicate | Empty

  datatype Policy = Policy(transitions: set<Transition>) | Rejected(error: PolicyError)

  /** The line reads as a transition and no earlier line allows the same one. */
  predicate LineOk(lines: seq<string>, i: nat)
    requires i < |lines|
  {
    match Classify(lines[i])
    case Skipped => true
    case Malformed | NotLiteral => false
    case Allows(t) => forall j | 0 <= j < i :: Classify(lines[j]) != Allows(t)
  }

  /** What the first bad line is reported as. */
  function LineError(line: Line, number: nat): PolicyError {
    match line
    case Malformed => InvalidLine(number)
    case NotLiteral => NotLiteralIds
    case _ => Duplicate
  }

  ghost predicate Allowed(lines: seq<string>, t: Transition) {
    exists i | 0 <= i < |lines| :: Classify(lines[i]) == Allows(t)
  }

  /** Accepted exactly when every line is fine and some line allows something, and then the policy is exactly
      what the lines allow; otherwise the first bad line decides the error. */
  method ParsePolicy(lines: seq<string>) returns (p: Policy)
    ensures p.Policy? <==>
      (forall i | 0 <= i < |lines| :: LineOk(lines, i)) && exists i | 0 <= i < |lines| :: Classify(lines[i]).Allows?
    ensures p.Policy? ==> forall t :: t in p.transitions <==> Allowed(lines, t)
    ensures p == Rejected(Empty) <==> forall i | 0 <= i < |lines| :: Classify(lines[i]).Skipped?
    ensures p.Rejected? && p != Rejected(Empty) ==>
      exists i | 0 <= i < |lines| ::
        !LineOk(lines, i) && (forall j | 0 <= j < i :: LineOk(lines, j))
        && p.error == match Classify(lines[i])
                      case Malformed => InvalidLine(i + 1)
                      case NotLiteral => NotLiteralIds
                      case _ => Duplicate
  {
    hide Classify;
    var transitions: set<Transition> := {};
    var i := 0;
    while i < |lines|
      invariant 0 <= i <= |lines|
      invariant forall k | 0 <= k < i :: LineOk(lines, k)
      invariant forall k | 0 <= k < i && Classify(lines[k]).Allows? :: Classify(lines[k]).transition in transitions
      invariant forall t :: t in transitions <==> exists k | 0 <= k < i :: Classify(lines[k]) == Allows(t)
    {
      var line := Classify(lines[i]);
      if line.Malformed? || line.NotLiteral? || (line.Allows? && line.transition in transitions) {
        assert !LineOk(lines, i);
        return Rejected(LineError(line, i + 1));
      }
      if line.Allows? { transitions := transitions + {line.transition}; }
      i := i + 1;
    }
    if transitions == {} {
      forall k | 0 <= k < |lines| ensures Classify(lines[k]).Skipped? {
        assert LineOk(lines, k);
      }
      return Rejected(Empty);
    }
    var t :| t in transitions;
    p := Policy(transitions);
  }

  /** Nothing but blanks, or a comment. */
  predicate Ignorable(raw: string) {
    (forall i | 0 <= i < |raw| :: Space(raw[i]))
    || exists i | 0 <= i < |raw| :: raw[i] == '#' && forall j | 0 <= j < i :: Space(raw[j])
  }

  lemma IgnorableIsSkipped(raw: string)
    ensures Classify(raw).Skipped? <==> Ignorable(raw)
  {
    StripStarts(raw);
    assert !Space('#');
  }

  /** A line allows a transition exactly when it is no comment and, stripped, is two fields around one tab that,
      stripped again, are these literal identifiers. */
  lemma AllowsIsExact(raw: string, from: Revision, to: Revision)
    ensures Classify(raw) == Allows((from, to)) <==>
      && !Ignorable(raw) && Literal(from) && Literal(to)
      && exists a, b :: Strip(raw) == a + ['\t'] + b && '\t' !in a && '\t' !in b && Strip(a) == from && Strip(b) == to
  {
    IgnorableIsSkipped(raw);
    var line := Strip(raw);
    hide Ignorable, Literal, Strip;
    var fields := Split(line, '\t');
    if Classify(raw) == Allows((from, to)) {
      FieldsJoinAgain(line, '\t');
      assert line == fields[0] + ['\t'] + fields[1];
    }
    if a, b :| line == a + ['\t'] + b && '\t' !in a && '\t' !in b && Strip(a) == from && Strip(b) == to {
      SplitJoined(a, b, '\t');
    }
  }

  /** A comment or a blank line added anywhere leaves the policy accepted or refused as it was, with the same
      transitions. */
  lemma CommentsChangeNothing(before: seq<string>, note: string, after: seq<string>)
    requires Ignorable(note)
    ensures var lines, noted := before + after, before + [note] + after;
            && ((forall i | 0 <= i < |noted| :: LineOk(noted, i)) <==> (forall i | 0 <= i < |lines| :: LineOk(lines, i)))
            && (forall t :: Allowed(noted, t) <==> Allowed(lines, t))
  {
    var lines, noted := before + after, before + [note] + after;
    IgnorableIsSkipped(note);
    hide Classify, Ignorable;
    var at: int -> int := k => if k < |before| then k else k + 1;
    assert forall k | 0 <= k < |lines| :: noted[at(k)] == lines[k];
    assert noted[|before|] == note;
    forall t ensures Allowed(noted, t) <==> Allowed(lines, t) {
      if i :| 0 <= i < |lines| && Classify(lines[i]) == Allows(t) { assert Classify(noted[at(i)]) == Allows(t); }
      if i :| 0 <= i < |noted| && Classify(noted[i]) == Allows(t) {
        assert Classify(lines[if i < |before| then i else i - 1]) == Allows(t);
      }
    }
    forall i | 0 <= i < |lines| ensures LineOk(noted, at(i)) <==> LineOk(lines, i) {
      if Classify(lines[i]).Allows? {
        var t := Classify(lines[i]).transition;
        if j :| 0 <= j < i && Classify(lines[j]) == Allows(t) { assert Classify(noted[at(j)]) == Allows(t); }
        if j :| 0 <= j < at(i) && Classify(noted[j]) == Allows(t) {
          assert Classify(lines[if j < |before| then j else j - 1]) == Allows(t);
        }
      }
    }
    assert LineOk(noted, |before|);
    if forall i | 0 <= i < |lines| :: LineOk(lines, i) {
      forall i | 0 <= i < |noted| ensures LineOk(noted, i) {
        if i != |before| { assert LineOk(lines, if i < |before| then i else i - 1); }
      }
    }
  }

  lemma LiteralIsTrimmed(r: Revision)
    requires Literal(r)
    ensures r != "" && Trimmed(r) && '\t' !in r && r[0] != '#'
  {}

  /** A written transition is read back as itself. */
  lemma WrittenLinesReadBack(from: Revision, to: Revision)
    requires Literal(from) && Literal(to)
    ensures Classify(from + "\t" + to) == Allows((from, to))
  {
    LiteralIsTrimmed(from);
    LiteralIsTrimmed(to);
    hide Literal, Split, Strip;
    var line := from + ['\t'] + to;
    assert line == from + "\t" + to;
    StripFixesTrimmed(line);
    StripFixesTrimmed(from);
    StripFixesTrimmed(to);
    SplitJoined(from, to, '\t');
  }

  // ---------- the revision graph ----------

  /** Parents and a height that only grows along the history; `resolve` is Alembic's own reading of an
      identifier, which also accepts abbreviations. */
  datatype Graph = Graph(parents: map<Revision, set<Revision>>, height: map<Revision, nat>,
                         resolve: map<Revision, Revision>)

  predicate WellFormed(g: Graph) {
    && g.height.Keys == g.parents.Keys
    && (forall r, p | r in g.parents && p in g.parents[r] :: p in g.parents && g.height[p] < g.height[r])
    && (forall s | s in g.resolve :: g.resolve[s] in g.parents)
    && (forall r | r in g.parents :: r in g.resolve && g.resolve[r] == r)
  }

  /** a is a proper ancestor of r. */
  predicate Ancestor(g: Graph, a: Revision, r: Revision)
    requires WellFormed(g) && r in g.parents
    decreases g.height[r]
  {
    exists p | p in g.parents[r] :: p == a || Ancestor(g, a, p)
  }

  lemma {:induction false} AncestorIsLower(g: Graph, a: Revision, r: Revision)
    requires WellFormed(g) && r in g.parents && Ancestor(g, a, r)
    ensures a in g.parents && g.height[a] < g.height[r]
    decreases g.height[r]
  {
    var p :| p in g.parents[r] && (p == a || Ancestor(g, a, p));
    if p != a { AncestorIsLower(g, a, p); }
  }

  /** A way from path's first revision to its last, parent by parent. */
  predicate Lineage(g: Graph, path: seq<Revision>)
    requires WellFormed(g)
    decreases |path|
  {
    |path| >= 2 &&
    var r, before := path[|path| - 1], path[..|path| - 1];
    r in g.parents && path[|path| - 2] in g.parents[r] && (|path| == 2 || Lineage(g, before))
  }

  lemma {:induction false} AncestorHasLineage(g: Graph, a: Revision, r: Revision) returns (path: seq<Revision>)
    requires WellFormed(g) && r in g.parents && Ancestor(g, a, r)
    ensures Lineage(g, path) && path[0] == a && path[|path| - 1] == r
    decreases g.height[r]
  {
    var p :| p in g.parents[r] && (p == a || Ancestor(g, a, p));
    if p == a {
      path := [a, r];
    } else {
      var up := AncestorHasLineage(g, a, p);
      path := up + [r];
      assert path[..|path| - 1] == up;
    }
  }

  lemma {:induction false} LineageIsAncestry(g: Graph, path: seq<Revision>)
    requires WellFormed(g) && Lineage(g, path)
    ensures path[|path| - 1] in g.parents && Ancestor(g, path[0], path[|path| - 1])
    decreases |path|
  {
    if |path| > 2 { LineageIsAncestry(g, path[..|path| - 1]); }
    assert path[|path| - 2] in g.parents[path[|path| - 1]];
  }

  /** Being a proper ancestor is being the start of such a way. */
  lemma AncestorIsLineage(g: Graph, a: Revision, r: Revision)
    requires WellFormed(g) && r in g.parents
    ensures Ancestor(g, a, r) <==> exists path :: Lineage(g, path) && path[0] == a && path[|path| - 1] == r
  {
    hide Ancestor, WellFormed;
    if Ancestor(g, a, r) { var path := AncestorHasLineage(g, a, r); }
    if path :| |path| > 0 && Lineage(g, path) && path[0] == a && path[|path| - 1] == r { LineageIsAncestry(g, path); }
  }

  lemma {:induction false} AncestorIsTransitive(g: Graph, a: Revision, b: Revision, c: Revision)
    requires WellFormed(g) && b in g.parents && c in g.parents && Ancestor(g, a, b) && Ancestor(g, b, c)
    ensures Ancestor(g, a, c)
    decreases g.height[c]
  {
    var p :| p in g.parents[c] && (p == b || Ancestor(g, b, p));
    if p != b { AncestorIsTransitive(g, a, b, p); }
    assert Ancestor(g, a, p);
  }

  function Descendants(g: Graph, r: Revision): set<Revision>
    requires WellFormed(g)
  {
    set d | d in g.parents && Ancestor(g, r, d)
  }

  /** Moving to a proper descendant leaves strictly fewer revisions ahead. */
  lemma FewerAhead(g: Graph, a: Revision, b: Revision)
    requires WellFormed(g) && b in g.parents && Ancestor(g, a, b)
    ensures |Descendants(g, b)| < |Descendants(g, a)|
  {
    forall d | d in Descendants(g, b) ensures d in Descendants(g, a) { AncestorIsTransitive(g, a, b, d); }
    if b in Descendants(g, b) { AncestorIsLower(g, b, b); }
    assert b in Descendants(g, a);
    SmallerSet(Descendants(g, b), Descendants(g, a));
  }

  lemma SmallerSet<T>(a: set<T>, b: set<T>)
    requires a < b
    ensures |a| < |b|
  {
    assert b == a + (b - a);
  }

  // ---------- one request ----------

  datatype Request = Request(releaseSha: string, distinctRoles: bool, policy: set<Transition>, sourceSha: string,
                             approvedSha: string, expected: Revision, target: Revision)

  datatype Error =
    | ReleaseMismatch | NoDistinctRoles
    | ShaNotExact | NotLiteralRevision | NotAllowlisted | HeadMismatch | NotDescendant | AbsentRevision
    | UpgradeRaised | WrongResult

  /** Forty digits whose codes are those of 0 to 9 and a to f. */
  lemma FullShaIsExact(s: string)
    ensures FullSha(s) <==> |s| == 40 && forall i | 0 <= i < |s| :: var code := s[i] as int; 47 < code < 58 || 96 < code < 103
  {}

  predicate FullSha(s: string) { |s| == 40 && forall i | 0 <= i < |s| :: '0' <= s[i] <= '9' || 'a' <= s[i] <= 'f' }

  datatype Walk = NotAncestor | Walked(first: Option<Revision>)

  /** iterate_revisions: from the upper revision down to the lower one, which is left out. */
  function Iterate(g: Graph, upper: Revision, lower: Revision): Walk
    requires WellFormed(g) && upper in g.parents
  {
    if lower == upper then Walked(None) else if Ancestor(g, lower, upper) then Walked(Some(upper)) else NotAncestor
  }

  function Validate(r: Request, heads: seq<Revision>, g: Graph): Option<Error>
    requires WellFormed(g)
  {
    if !FullSha(r.sourceSha) || !FullSha(r.approvedSha) || r.sourceSha != r.approvedSha then Some(ShaNotExact)
    else if !Literal(r.expected) || !Literal(r.target) then Some(NotLiteralRevision)
    else if (r.expected, r.target) !in r.policy then Some(NotAllowlisted)
    else if heads != [r.expected] then Some(HeadMismatch)
    else if r.expected !in g.resolve || r.target !in g.resolve then Some(AbsentRevision)
    else if r.target == r.expected then None
    else
      match Iterate(g, g.resolve[r.target], g.resolve[r.expected])
      case NotAncestor => Some(NotDescendant)
      case Walked(first) => if first == Some(r.target) then None else Some(NotDescendant)
  }

  /** What the runner accepts, in the graph's terms: an abbreviation Alembic would understand is not enough. */
  predicate Authorized(r: Request, heads: seq<Revision>, g: Graph)
    requires WellFormed(g)
  {
    && FullSha(r.sourceSha) && r.approvedSha == r.sourceSha
    && Literal(r.expected) && Literal(r.target) && (r.expected, r.target) in r.policy
    && heads == [r.expected]
    && r.expected in g.resolve && r.target in g.resolve
    && (r.target == r.expected || (r.target in g.parents && Ancestor(g, g.resolve[r.expected], r.target)))
  }

  lemma ValidateIsExact(r: Request, heads: seq<Revision>, g: Graph)
    requires WellFormed(g)
    ensures Validate(r, heads, g) == None <==> Authorized(r, heads, g)
  {
    hide FullSha, Literal;
    if r.target in g.parents && r.expected in g.resolve && Ancestor(g, g.resolve[r.expected], r.target) {
      AncestorIsLower(g, g.resolve[r.expected], r.target);
    }
    hide Ancestor;
  }

  /** What Alembic makes of an upgrade: it raises with nothing changed, or ends with these heads. */
  datatype Upgrade = Raises | Ends(heads: seq<Revision>)

  /** Alembic reaches exactly what it was asked for, or fails atomically. */
  predicate Atomic(u: Upgrade, r: Request) { u.Raises? || u.heads == [r.target] }

  class Database {
    var heads: seq<Revision>

    constructor (heads: seq<Revision>)
      ensures this.heads == heads
    { this.heads := heads; }

    /** Every refusal comes before the upgrade and leaves the heads alone; success means the database is at
        exactly the target. */
    method Execute(r: Request, g: Graph, upgrade: Upgrade) returns (error: Option<Error>)
      requires WellFormed(g)
      modifies this
      ensures error == None <==>
                && r.releaseSha == r.sourceSha && r.distinctRoles && Authorized(r, old(heads), g)
                && (r.target == r.expected || upgrade == Ends([r.target]))
      ensures error == None ==> heads == [r.target]
      ensures error.Some? && error.value != WrongResult ==> heads == old(heads)
      ensures error == Some(WrongResult) ==> upgrade.Ends? && heads == upgrade.heads != [r.target]
      ensures Atomic(upgrade, r) ==> Outcome(old(heads), r, g, upgrade) == (heads, error)
    {
      ValidateIsExact(r, heads, g);
      hide Ancestor, Literal, FullSha;
      if r.releaseSha != r.sourceSha { return Some(ReleaseMismatch); }
      if !r.distinctRoles { return Some(NoDistinctRoles); }
      var refusal := Validate(r, heads, g);
      if refusal.Some? { return refusal; }
      if r.target != r.expected {
        if upgrade.Raises? { return Some(UpgradeRaised); }
        heads := upgrade.heads;
      }
      if heads != [r.target] { return Some(WrongResult); }
      return None;
    }
  }

  /** One execution with an atomic upgrade, as a function of the heads. */
  function Outcome(heads: seq<Revision>, r: Request, g: Graph, upgrade: Upgrade): (seq<Revision>, Option<Error>)
    requires WellFormed(g)
  {
    if r.releaseSha != r.sourceSha then (heads, Some(ReleaseMismatch))
    else if !r.distinctRoles then (heads, Some(NoDistinctRoles))
    else
      match Validate(r, heads, g)
      case Some(e) => (heads, Some(e))
      case None =>
        if r.target != r.expected && upgrade.Raises? then (heads, Some(UpgradeRaised)) else ([r.target], None)
  }

  // ---------- runs of requests ----------

  datatype Attempt = Attempt(request: Request, upgrade: Upgrade)

  function Run(heads: seq<Revision>, g: Graph, attempts: seq<Attempt>): seq<Revision>
    requires WellFormed(g)
    decreases |attempts|
  {
    if attempts == [] then heads
    else Run(Outcome(heads, attempts[0].request, g, attempts[0].upgrade).0, g, attempts[1..])
  }

  /** The head changes made along the way. */
  function Moves(heads: seq<Revision>, g: Graph, attempts: seq<Attempt>): seq<Transition>
    requires WellFormed(g)
    decreases |attempts|
  {
    if attempts == [] then []
    else
      var next := Outcome(heads, attempts[0].request, g, attempts[0].upgrade).0;
      var rest := Moves(next, g, attempts[1..]);
      if next == heads then rest else [(attempts[0].request.expected, attempts[0].request.target)] + rest
  }

  /** One attempt keeps a single known head; a move goes from it to an allowlisted proper descendant. */
  lemma OneAttempt(head: Revision, g: Graph, a: Attempt)
    requires WellFormed(g) && head in g.parents
    ensures var next := Outcome([head], a.request, g, a.upgrade).0;
            next != [head] ==>
              && next == [a.request.target] && a.request.expected == head
              && a.request.target in g.parents && Ancestor(g, head, a.request.target)
              && (head, a.request.target) in a.request.policy
  {
    ValidateIsExact(a.request, [head], g);
    hide Ancestor, Literal, FullSha;
  }

  /** Each move starts where the previous one ended and goes down the graph. */
  predicate Descends(g: Graph, from: Revision, moves: seq<Transition>, to: Revision)
    requires WellFormed(g)
    decreases |moves|
  {
    if moves == [] then from == to
    else
      && moves[0].0 == from && moves[0].1 in g.parents && Ancestor(g, from, moves[0].1)
      && Descends(g, moves[0].1, moves[1..], to)
  }

  predicate SomeoneAllows(attempts: seq<Attempt>, t: Transition) {
    exists i | 0 <= i < |attempts| :: t in attempts[i].request.policy
  }

  /** Over any sequence of requests: there is always exactly one head, it only ever moves along allowlisted
      edges to proper descendants, and it can move no more often than there are revisions ahead of it. */
  lemma {:induction false} RunsDescend(head: Revision, g: Graph, attempts: seq<Attempt>)
    requires WellFormed(g) && head in g.parents
    ensures var end, moves := Run([head], g, attempts), Moves([head], g, attempts);
            && |end| == 1 && end[0] in g.parents
            && Descends(g, head, moves, end[0])
            && (forall i | 0 <= i < |moves| :: SomeoneAllows(attempts, moves[i]))
            && |moves| + |Descendants(g, end[0])| <= |Descendants(g, head)|
    decreases |attempts|
  {
    if attempts != [] {
      var a, rest := attempts[0], attempts[1..];
      OneAttempt(head, g, a);
      hide Outcome, Ancestor, Descendants;
      var next := Outcome([head], a.request, g, a.upgrade).0;
      if next == [head] {
        RunsDescend(head, g, rest);
        AllowedEarlier(attempts, Moves([head], g, rest));
      } else {
        RunsDescend(a.request.target, g, rest);
        FewerAhead(g, head, a.request.target);
        AllowedEarlier(attempts, Moves(next, g, rest));
        assert SomeoneAllows(attempts, (head, a.request.target));
        var moves := Moves([head], g, attempts);
        assert moves[1..] == Moves(next, g, rest);
      }
    }
  }

  lemma AllowedEarlier(attempts: seq<Attempt>, moves: seq<Transition>)
    requires attempts != []
    requires forall i | 0 <= i < |moves| :: SomeoneAllows(attempts[1..], moves[i])
    ensures forall i | 0 <= i < |moves| :: SomeoneAllows(attempts, moves[i])
  {
    forall i | 0 <= i < |moves| ensures SomeoneAllows(attempts, moves[i]) {
      assert SomeoneAllows(attempts[1..], moves[i]);
      var k :| 0 <= k < |attempts[1..]| && moves[i] in attempts[1..][k].request.policy;
      assert attempts[k + 1] == attempts[1..][k];
    }
  }
}
