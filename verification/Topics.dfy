/** The topics a published path is delivered to (config/service_pubsub.go, config/path.go): its
    first one to four levels and the whole fully qualified path. */
module Topics {
  import opened Common
  import opened Decimal
  import opened RouteKey
  import opened Path
  import opened PathCodec
  import Scope

  const ROUNDS := 5

  /** The depth passed to Path.Level in the i-th call of readMapAndSend. */
  function Depth(i: nat): int { if i < 4 then i + 1 else -1 }

  function Topic(fq: string, i: nat): string { LevelOf(fq, Depth(i)) }

  predicate Qualified(fq: string) { CountSlash(fq) >= 4 }

  /** Every message is the fully qualified form of a valid path. */
  lemma FQIsQualified(rt: Runes, p: PathValue)
    requires FQ(rt, p).Ok?
    ensures Qualified(FQ(rt, p).value)
  {
    CountSlashSum(Header(p.scopeID) + p.route, PrintedSuffix(p));
    var (s, id) := PrintedScope(p.scopeID);
    HeaderSplits(p.scopeID, p.route);
    NoSlashInHeader(p.scopeID);
    SplitHeaderUnique(Scope.StrType(s), Print(id), p.route);
    assert Header(p.scopeID) + p.route == Scope.StrType(s) + "/" + Print(id) + "/" + p.route;
  }

  lemma SlashesInTopic(fq: string, i: nat)
    requires Qualified(fq) && i < ROUNDS
    ensures if i < 4 then CountSlash(Topic(fq, i)) == i else CountSlash(Topic(fq, i)) >= 4
    ensures Topic(fq, i) <= fq
  {
    if i < 4 {
      NthSlashShape(fq, 0, i + 1);
      assert fq[0..] == fq;
      assert fq[0..NthSlash(fq, 0, i + 1)] == fq[..NthSlash(fq, 0, i + 1)];
    }
  }

  /** The five topics of one message are pairwise different. */
  lemma TopicsDiffer(fq: string, i: nat, j: nat)
    requires Qualified(fq) && i < j < ROUNDS
    ensures Topic(fq, i) != Topic(fq, j)
  {
    SlashesInTopic(fq, i);
    SlashesInTopic(fq, j);
  }

  /** A subscriber's topic is served by some round exactly when it is the whole path or the part
      of it before one of its first four slashes. */
  lemma ServedTopics(fq: string, topic: string)
    requires Qualified(fq)
    ensures (exists i: nat | i < ROUNDS :: Topic(fq, i) == topic) <==>
              topic == fq || (CountSlash(topic) < 4 && topic + "/" <= fq)
  {
    forall i: nat | i < 4
      ensures Topic(fq, i) + "/" <= fq && CountSlash(Topic(fq, i)) == i
    {
      NthSlashShape(fq, 0, i + 1);
      SlashesInTopic(fq, i);
      assert fq[0..] == fq;
      var e := NthSlash(fq, 0, i + 1);
      assert fq[..e] + "/" == fq[..e + 1];
    }
    if topic == fq { assert Topic(fq, 4) == fq; }
    if CountSlash(topic) < 4 && topic + "/" <= fq {
      var i := CountSlash(topic);
      CutIsUnique(fq, topic, Topic(fq, i));
    }
  }

  /** A topic that a valid path serves is a scope name or starts with one and a slash: topics
      without a scope never match. */
  lemma ServedTopicsAreScoped(rt: Runes, p: PathValue, topic: string)
    requires FQ(rt, p).Ok? && exists i: nat | i < ROUNDS :: Topic(FQ(rt, p).value, i) == topic
    ensures var name := Scope.StrType(PrintedScope(p.scopeID).0);
            Scope.ValidStr(name) && (topic == name || name + "/" <= topic)
  {
    hide FQ, LevelOf, CountSlash;
    var fq, name := FQ(rt, p).value, Scope.StrType(PrintedScope(p.scopeID).0);
    FQIsQualified(rt, p);
    ServedTopics(fq, topic);
    StartsWithItsScope(rt, p);
    assert forall k | 0 <= k < |name| :: fq[k] == name[k];
    if topic != fq { assert (topic + "/")[|topic|] == '/' == fq[|topic|]; }
    assert topic <= fq;
  }

  lemma StartsWithItsScope(rt: Runes, p: PathValue)
    requires FQ(rt, p).Ok?
    ensures var name := Scope.StrType(PrintedScope(p.scopeID).0);
            Scope.ValidStr(name) && name + "/" <= FQ(rt, p).value && NoSlash(name, 0, |name|)
  {
    hide IsValid, Print, CountSlash, Scope.StrType, PrintedSuffix;
    var (s, id) := PrintedScope(p.scopeID);
    NoSlashInHeader(p.scopeID);
    CountSlashZero(Scope.StrType(s));
    Scope.FromStringOfStr(s);
    Regroup(Scope.StrType(s) + "/", Print(id) + "/", p.route, PrintedSuffix(p));
  }

  /** The part before a slash is determined by the number of slashes in it. */
  lemma CutIsUnique(fq: string, a: string, b: string)
    requires a + "/" <= fq && b + "/" <= fq && CountSlash(a) == CountSlash(b)
    ensures a == b
  {
    if |a| < |b| {
      ShorterHasFewer(fq, a, b);
    } else if |b| < |a| {
      ShorterHasFewer(fq, b, a);
    } else {
      assert a == fq[..|a|] && b == fq[..|b|];
    }
  }

  lemma ShorterHasFewer(fq: string, a: string, b: string)
    requires a + "/" <= fq && b <= fq && |a| < |b|
    ensures CountSlash(a) < CountSlash(b)
  {
    assert b == (a + "/") + b[|a| + 1..];
    CountSlashSum(a + "/", b[|a| + 1..]);
    CountSlashSum(a, "/");
    assert CountSlash("/") == 1 by { assert "/"[..0] == ""; }
  }
}
