/**
 * The forwarding-set computation of `_attachRemoteLogs` (FrusterLogger.js:34-51): which
 * levels are re-published on the bus, given the configured remote threshold.
 */
module LevelRouter {
  import opened Wrappers
  import opened Constants

  /** The two levels that are always forwarded (FrusterLogger.js:6-7). */
  const RemoteLevelName: string := "remote"
  const AuditLevelName: string := "audit"

  predicate NoDuplicates(s: seq<string>) {
    forall i, j :: 0 <= i < j < |s| ==> s[i] != s[j]
  }

  /**
   * `Object.keys(levels).filter(n => levels[n] <= t)`: the names whose rank is at most
   * `t`, i.e. as severe as the threshold or more, in table order.
   */
  function AtOrAbove(table: seq<LevelRank>, t: int): (r: seq<string>)
    ensures |r| <= |table|
  {
    if |table| == 0 then []
    else (if table[0].rank <= t then [table[0].name] else []) + AtOrAbove(table[1..], t)
  }

  /** The filter drops no level whose rank is at most t. */
  lemma {:induction false} AtOrAboveKeepsEligible(table: seq<LevelRank>, t: int, i: nat)
    requires i < |table| && table[i].rank <= t
    ensures table[i].name in AtOrAbove(table, t)
  {
    if i > 0 {
      assert table[1..][i - 1] == table[i];
      AtOrAboveKeepsEligible(table[1..], t, i - 1);
    }
  }

  /** Every position moved one further along. */
  function Shift(s: seq<nat>): (r: seq<nat>)
    ensures |r| == |s|
    ensures forall k :: 0 <= k < |s| ==> r[k] == s[k] + 1
  {
    if |s| == 0 then [] else [s[0] + 1] + Shift(s[1..])
  }

  /** The filter's output, read back as increasing positions in the table. */
  lemma {:induction false} AtOrAbovePositions(table: seq<LevelRank>, t: int) returns (pos: seq<nat>)
    ensures |pos| == |AtOrAbove(table, t)|
    ensures forall i :: 0 <= i < |pos| ==>
      pos[i] < |table| && table[pos[i]].name == AtOrAbove(table, t)[i] && table[pos[i]].rank <= t
    ensures forall i, j :: 0 <= i < j < |pos| ==> pos[i] < pos[j]
  {
    if |table| == 0 {
      return [];
    }
    var rest := AtOrAbove(table[1..], t);
    var tailPos := AtOrAbovePositions(table[1..], t);
    var shifted := Shift(tailPos);
    forall k | 0 <= k < |shifted|
      ensures shifted[k] < |table| && table[shifted[k]].name == rest[k] && table[shifted[k]].rank <= t
    {
      assert table[shifted[k]] == table[1..][tailPos[k]];
    }
    if table[0].rank <= t {
      PositionsCons(table[0].name, rest, table, t, shifted);
      pos := [0] + shifted;
    } else {
      pos := shifted;
    }
  }

  /** Putting the head in front of the tail's shifted positions keeps them valid and increasing. */
  lemma PositionsCons(head: string, rest: seq<string>, table: seq<LevelRank>, t: int, shifted: seq<nat>)
    requires |table| > 0 && table[0].name == head && table[0].rank <= t
    requires |shifted| == |rest|
    requires forall k :: 0 <= k < |shifted| ==>
      shifted[k] < |table| && table[shifted[k]].name == rest[k] && table[shifted[k]].rank <= t
    requires forall i, j :: 0 <= i < j < |shifted| ==> shifted[i] < shifted[j]
    requires forall k :: 0 <= k < |shifted| ==> 0 < shifted[k]
    ensures var pos := [0] + shifted; var r := [head] + rest;
      && (forall i :: 0 <= i < |pos| ==> pos[i] < |table| && table[pos[i]].name == r[i] && table[pos[i]].rank <= t)
      && (forall i, j :: 0 <= i < j < |pos| ==> pos[i] < pos[j])
  {
  }

  /** For distinct names, the filter keeps exactly the levels whose looked-up rank is at most t. */
  lemma AtOrAboveMembership(table: seq<LevelRank>, t: int, n: string)
    requires DistinctNames(table)
    ensures n in AtOrAbove(table, t) <==> RankOf(table, n).Some? && RankOf(table, n).value <= t
  {
    if n in AtOrAbove(table, t) {
      var pos := AtOrAbovePositions(table, t);
      var k :| 0 <= k < |AtOrAbove(table, t)| && AtOrAbove(table, t)[k] == n;
      RankOfEntry(table, pos[k]);
    } else if RankOf(table, n).Some? {
      var i := IndexIn(table, n);
      if table[i].rank <= t {
        AtOrAboveKeepsEligible(table, t, i);
      }
    }
  }

  /** Both names are declared in the table, `a` before `b`. */
  predicate DeclaredBefore(table: seq<LevelRank>, a: string, b: string) {
    a in Names(table) && b in Names(table) && IndexIn(table, a) < IndexIn(table, b)
  }

  /** In a table with distinct names, the first index of an entry's name is that entry's index. */
  lemma {:induction false} IndexOfEntry(table: seq<LevelRank>, p: nat)
    requires DistinctNames(table)
    requires p < |table|
    ensures table[p].name in Names(table) && IndexIn(table, table[p].name) == p
  {
    assert Names(table)[p] == table[p].name;
    if p > 0 {
      assert table[0].name != table[p].name;
      assert table[1..][p - 1] == table[p];
      IndexOfEntry(table[1..], p - 1);
    }
  }

  /** The filter keeps the declaration order of the table. */
  lemma AtOrAboveKeepsTableOrder(table: seq<LevelRank>, t: int)
    requires DistinctNames(table)
    ensures forall i, j :: 0 <= i < j < |AtOrAbove(table, t)| ==>
      DeclaredBefore(table, AtOrAbove(table, t)[i], AtOrAbove(table, t)[j])
  {
    var r := AtOrAbove(table, t);
    var pos := AtOrAbovePositions(table, t);
    forall i, j | 0 <= i < j < |r|
      ensures DeclaredBefore(table, r[i], r[j])
    {
      IndexOfEntry(table, pos[i]);
      IndexOfEntry(table, pos[j]);
    }
  }

  /** A filter that keeps table order over distinct names repeats no name. */
  lemma AtOrAboveNoDuplicates(table: seq<LevelRank>, t: int)
    requires DistinctNames(table)
    ensures NoDuplicates(AtOrAbove(table, t))
  {
    var pos := AtOrAbovePositions(table, t);
  }

  lemma ConsPrefix<T>(a: T, s: seq<T>, i: nat)
    requires i <= |s|
    ensures ([a] + s)[..i + 1] == [a] + s[..i]
  {
  }

  /** A threshold below every rank keeps nothing. */
  lemma {:induction false} NothingAtOrAbove(table: seq<LevelRank>, t: int)
    requires forall i :: 0 <= i < |table| ==> table[i].rank > t
    ensures AtOrAbove(table, t) == []
  {
    if |table| > 0 {
      assert forall i :: 0 <= i < |table[1..]| ==> table[1..][i] == table[i + 1];
      NothingAtOrAbove(table[1..], t);
    }
  }

  /**
   * When ranks increase along the table, thresholding at the i-th level's rank keeps
   * exactly the first i + 1 names: the forwarded levels are a prefix of the table.
   */
  lemma {:induction false} SortedFilterIsPrefix(table: seq<LevelRank>, i: nat)
    requires StrictlyIncreasing(table)
    requires i < |table|
    ensures AtOrAbove(table, table[i].rank) == Names(table)[..i + 1]
  {
    var t := table[i].rank;
    var tail := table[1..];
    var rest := AtOrAbove(tail, t);
    assert table[0].rank <= t;
    assert AtOrAbove(table, t) == [table[0].name] + rest;
    if i == 0 {
      NothingAtOrAbove(tail, t);
      assert Names(table)[..1] == [table[0].name];
    } else {
      assert tail[i - 1] == table[i];
      assert StrictlyIncreasing(tail);
      SortedFilterIsPrefix(tail, i - 1);
      assert Names(table) == [table[0].name] + Names(tail);
      ConsPrefix(table[0].name, Names(tail), i);
    }
  }

  /** The rank filter applied only when a threshold rank was found (FrusterLogger.js:38-42). */
  function Ranked(threshold: Option<int>, table: seq<LevelRank>): (r: seq<string>)
    ensures threshold.None? ==> r == []
    ensures |r| <= |table|
  {
    if threshold.Some? then AtOrAbove(table, threshold.value) else []
  }

  /**
   * `levelsToAttach`: the rank-filtered levels, then `remote` and `audit` pushed when
   * missing. `threshold` is `levels[remoteLogLevel]`; None stands for `undefined`,
   * and a rank of 0 is a real threshold.
   */
  function ForwardSet(threshold: Option<int>, table: seq<LevelRank>): (r: seq<string>)
    ensures RemoteLevelName in r && AuditLevelName in r
  {
    WithMandatory(Ranked(threshold, table))
  }

  /** Lines 45-51: push `remote`, then `audit`, each only when not yet present. */
  function WithMandatory(ranked: seq<string>): (r: seq<string>)
    ensures RemoteLevelName in r && AuditLevelName in r
  {
    var withRemote := if RemoteLevelName in ranked then ranked else ranked + [RemoteLevelName];
    if AuditLevelName in withRemote then withRemote else withRemote + [AuditLevelName]
  }

  /** The mandatory levels a list lacks, `remote` before `audit`. */
  function Missing(ranked: seq<string>): seq<string> {
    (if RemoteLevelName in ranked then [] else [RemoteLevelName]) +
    (if AuditLevelName in ranked then [] else [AuditLevelName])
  }

  /** At most the two mandatory levels are missing, and when both are, `remote` comes first. */
  lemma MissingShape(ranked: seq<string>)
    ensures |Missing(ranked)| <= 2
    ensures |Missing(ranked)| == 2 ==> Missing(ranked) == [RemoteLevelName, AuditLevelName]
  {
  }

  /** The two pushes append exactly the missing mandatory levels and leave the list itself alone. */
  lemma WithMandatoryAppendsMissing(ranked: seq<string>)
    ensures WithMandatory(ranked) == ranked + Missing(ranked)
  {
    if RemoteLevelName !in ranked {
      assert AuditLevelName in ranked + [RemoteLevelName] <==> AuditLevelName in ranked;
    }
  }

  /** Whether level `n` passes the rank test against the threshold. */
  predicate RankSelected(threshold: Option<int>, table: seq<LevelRank>, n: string) {
    threshold.Some? && RankOf(table, n).Some? && RankOf(table, n).value <= threshold.value
  }

  /** A level is forwarded iff it is mandatory or passes the rank test. */
  lemma ForwardSetMembership(threshold: Option<int>, table: seq<LevelRank>, n: string)
    requires DistinctNames(table)
    ensures n in ForwardSet(threshold, table) <==>
      n == RemoteLevelName || n == AuditLevelName || RankSelected(threshold, table, n)
  {
    if threshold.Some? {
      AtOrAboveMembership(table, threshold.value, n);
    }
  }

  /**
   * The forwarding set is the rank-selected levels followed by the mandatory levels the
   * filter missed, and those appended levels do not pass the rank test.
   */
  lemma ForwardSetSplit(threshold: Option<int>, table: seq<LevelRank>)
    requires DistinctNames(table)
    ensures ForwardSet(threshold, table) == Ranked(threshold, table) + Missing(Ranked(threshold, table))
    ensures forall k :: 0 <= k < |Ranked(threshold, table)| ==>
      RankSelected(threshold, table, Ranked(threshold, table)[k])
    ensures forall n :: n in Missing(Ranked(threshold, table)) ==> !RankSelected(threshold, table, n)
  {
    var ranked := Ranked(threshold, table);
    WithMandatoryAppendsMissing(ranked);
    if threshold.Some? {
      forall k | 0 <= k < |ranked|
        ensures RankSelected(threshold, table, ranked[k])
      {
        AtOrAboveMembership(table, threshold.value, ranked[k]);
      }
      AtOrAboveMembership(table, threshold.value, RemoteLevelName);
      AtOrAboveMembership(table, threshold.value, AuditLevelName);
    }
  }

  /** Two lists without repeats, sharing no element, concatenate to a list without repeats. */
  lemma NoDuplicatesAppend(a: seq<string>, b: seq<string>)
    requires NoDuplicates(a) && NoDuplicates(b)
    requires forall x :: x in b ==> x !in a
    ensures NoDuplicates(a + b)
  {
    var c := a + b;
    forall i, j | 0 <= i < j < |c|
      ensures c[i] != c[j]
    {
      if i < |a| && |a| <= j {
        assert c[i] == a[i] && c[j] == b[j - |a|];
        assert b[j - |a|] in b;
      }
    }
  }

  /** The forwarding set repeats no level, so each level is wrapped at most once. */
  lemma ForwardSetNoDuplicates(threshold: Option<int>, table: seq<LevelRank>)
    requires DistinctNames(table)
    ensures NoDuplicates(ForwardSet(threshold, table))
  {
    var ranked := Ranked(threshold, table);
    if threshold.Some? {
      AtOrAboveNoDuplicates(table, threshold.value);
    }
    WithMandatoryAppendsMissing(ranked);
    NoDuplicatesAppend(ranked, Missing(ranked));
  }

  /** Past the rank-selected prefix, the forwarding set holds only missing mandatory levels. */
  lemma ForwardSetTail(threshold: Option<int>, table: seq<LevelRank>)
    requires DistinctNames(table)
    ensures |Ranked(threshold, table)| <= |ForwardSet(threshold, table)|
    ensures forall k :: 0 <= k < |Ranked(threshold, table)| ==>
      ForwardSet(threshold, table)[k] == Ranked(threshold, table)[k] &&
      RankSelected(threshold, table, ForwardSet(threshold, table)[k])
    ensures forall k :: |Ranked(threshold, table)| <= k < |ForwardSet(threshold, table)| ==>
      ForwardSet(threshold, table)[k] == Missing(Ranked(threshold, table))[k - |Ranked(threshold, table)|] &&
      !RankSelected(threshold, table, ForwardSet(threshold, table)[k])
  {
    var ranked := Ranked(threshold, table);
    var missing := Missing(ranked);
    var r := ForwardSet(threshold, table);
    ForwardSetSplit(threshold, table);
    forall k | |ranked| <= k < |r|
      ensures r[k] == missing[k - |ranked|] && !RankSelected(threshold, table, r[k])
    {
      assert missing[k - |ranked|] in missing;
    }
  }

  /**
   * Order of the forwarding set, first half: a rank-selected level is preceded only by
   * rank-selected levels, each declared before it in the table.
   */
  lemma ForwardSetSelectedFirst(threshold: Option<int>, table: seq<LevelRank>)
    requires DistinctNames(table)
    ensures forall i, j ::
      (0 <= i < j < |ForwardSet(threshold, table)| &&
       RankSelected(threshold, table, ForwardSet(threshold, table)[j])) ==>
        RankSelected(threshold, table, ForwardSet(threshold, table)[i]) &&
        DeclaredBefore(table, ForwardSet(threshold, table)[i], ForwardSet(threshold, table)[j])
  {
    var ranked := Ranked(threshold, table);
    var r := ForwardSet(threshold, table);
    ForwardSetTail(threshold, table);
    if threshold.Some? {
      AtOrAboveKeepsTableOrder(table, threshold.value);
    }
    forall i, j | 0 <= i < j < |r| && RankSelected(threshold, table, r[j])
      ensures RankSelected(threshold, table, r[i]) && DeclaredBefore(table, r[i], r[j])
    {
      assert j < |ranked|;
      assert r[i] == ranked[i] && r[j] == ranked[j];
    }
  }

  /**
   * Order of the forwarding set, second half: after the first level that fails the rank
   * test comes at most one more, and then the two are `remote` and `audit` in that order.
   */
  lemma ForwardSetMandatoryLast(threshold: Option<int>, table: seq<LevelRank>)
    requires DistinctNames(table)
    ensures forall i, j ::
      (0 <= i < j < |ForwardSet(threshold, table)| &&
       !RankSelected(threshold, table, ForwardSet(threshold, table)[i])) ==>
        !RankSelected(threshold, table, ForwardSet(threshold, table)[j]) &&
        ForwardSet(threshold, table)[i] == RemoteLevelName &&
        ForwardSet(threshold, table)[j] == AuditLevelName
  {
    var ranked := Ranked(threshold, table);
    var missing := Missing(ranked);
    var r := ForwardSet(threshold, table);
    ForwardSetTail(threshold, table);
    ForwardSetSplit(threshold, table);
    MissingShape(ranked);
    assert |r| == |ranked| + |missing|;
    forall i, j | 0 <= i < j < |r| && !RankSelected(threshold, table, r[i])
      ensures !RankSelected(threshold, table, r[j])
      ensures r[i] == RemoteLevelName && r[j] == AuditLevelName
    {
      assert |ranked| <= i;
      assert |missing| == 2 && i == |ranked| && j == |ranked| + 1;
      assert r[i] == missing[0] && r[j] == missing[1];
    }
  }

  /** Without a threshold rank, exactly the two mandatory levels are forwarded. */
  lemma NoThresholdForwardsMandatoryOnly(table: seq<LevelRank>)
    ensures ForwardSet(None, table) == [RemoteLevelName, AuditLevelName]
  {
  }

  /** The forwarding set for a configured `remoteLogLevel` name (FrusterLogger.js:35). */
  function ForwardingFor(remoteLogLevel: string): (r: seq<string>)
    ensures RemoteLevelName in r && AuditLevelName in r
  {
    ForwardSet(RankOf(Levels, remoteLogLevel), Levels)
  }

  /** An unknown threshold name does not fail: only `remote` and `audit` are forwarded. */
  lemma UnknownThresholdForwardsMandatoryOnly(remoteLogLevel: string)
    requires remoteLogLevel !in LevelNames
    ensures ForwardingFor(remoteLogLevel) == ["remote", "audit"]
  {
    LevelNamesInOrder();
  }

  /** A declared threshold forwards, by rank, exactly the levels declared up to and including it. */
  lemma DeclaredThresholdRanksPrefix(k: nat)
    requires k < |Levels|
    ensures Ranked(RankOf(Levels, Levels[k].name), Levels) == Names(Levels)[..k + 1]
  {
    LevelNamesDistinct();
    RanksStrictlyIncrease();
    RankOfEntry(Levels, k);
    SortedFilterIsPrefix(Levels, k);
  }

  /** The forwarding set of the `k`-th declared level, given the mandatory levels' effect on its prefix. */
  lemma ForwardingByIndex(k: nat, expected: seq<string>)
    requires k < |LevelNames|
    requires WithMandatory(LevelNames[..k + 1]) == expected
    ensures ForwardingFor(LevelNames[k]) == expected
  {
    LevelNamesInOrder();
    assert Levels[k].name == Names(Levels)[k];
    DeclaredThresholdRanksPrefix(k);
  }

  /** Threshold `error` has rank 0, a real threshold: `error` is forwarded with the mandatory levels. */
  lemma ErrorThresholdIsReal()
    ensures ForwardingFor("error") == ["error", "remote", "audit"]
  {
    var prefix := ["error"];
    assert WithMandatory(prefix) == ["error", "remote", "audit"];
    assert LevelNames[..1] == prefix;
    ForwardingByIndex(0, ["error", "remote", "audit"]);
  }

  /** Threshold `warn` forwards `error` and `warn`, then the mandatory levels. */
  lemma WarnThresholdForwarding()
    ensures ForwardingFor("warn") == ["error", "warn", "remote", "audit"]
  {
    var prefix := ["error", "warn"];
    assert WithMandatory(prefix) == ["error", "warn", "remote", "audit"];
    assert LevelNames[..2] == prefix;
    ForwardingByIndex(1, ["error", "warn", "remote", "audit"]);
  }

  /** Threshold `remote` already covers `remote`, so only `audit` is appended. */
  lemma RemoteThresholdForwarding()
    ensures ForwardingFor("remote") == ["error", "warn", "remote", "audit"]
  {
    var prefix := ["error", "warn", "remote"];
    assert prefix[2] == RemoteLevelName;
    assert WithMandatory(prefix) == ["error", "warn", "remote", "audit"];
    assert LevelNames[..3] == prefix;
    ForwardingByIndex(2, ["error", "warn", "remote", "audit"]);
  }

  /** From threshold `audit` on, the rank filter already holds both mandatory levels. */
  lemma AuditThresholdForwarding()
    ensures ForwardingFor("audit") == ["error", "warn", "remote", "audit"]
  {
    var prefix := ["error", "warn", "remote", "audit"];
    assert prefix[2] == RemoteLevelName && prefix[3] == AuditLevelName;
    assert WithMandatory(prefix) == ["error", "warn", "remote", "audit"];
    assert LevelNames[..4] == prefix;
    ForwardingByIndex(3, ["error", "warn", "remote", "audit"]);
  }

  /** Threshold `info` forwards the first five declared levels and appends nothing. */
  lemma InfoThresholdForwarding()
    ensures ForwardingFor("info") == ["error", "warn", "remote", "audit", "info"]
  {
    var prefix := ["error", "warn", "remote", "audit", "info"];
    assert prefix[2] == RemoteLevelName && prefix[3] == AuditLevelName;
    assert WithMandatory(prefix) == ["error", "warn", "remote", "audit", "info"];
    assert LevelNames[..5] == prefix;
    ForwardingByIndex(4, ["error", "warn", "remote", "audit", "info"]);
  }

  /** Threshold `debug` forwards every level except `silly`. */
  lemma DebugThresholdForwarding()
    ensures ForwardingFor("debug") == ["error", "warn", "remote", "audit", "info", "debug"]
  {
    var prefix := ["error", "warn", "remote", "audit", "info", "debug"];
    assert prefix[2] == RemoteLevelName && prefix[3] == AuditLevelName;
    assert WithMandatory(prefix) == ["error", "warn", "remote", "audit", "info", "debug"];
    assert LevelNames[..6] == prefix;
    ForwardingByIndex(5, ["error", "warn", "remote", "audit", "info", "debug"]);
  }

  /** Threshold `silly` forwards every level, in declaration order. */
  lemma SillyThresholdForwarding()
    ensures ForwardingFor("silly") == ["error", "warn", "remote", "audit", "info", "debug", "silly"]
  {
    var prefix := ["error", "warn", "remote", "audit", "info", "debug", "silly"];
    assert prefix[2] == RemoteLevelName && prefix[3] == AuditLevelName;
    assert WithMandatory(prefix) == ["error", "warn", "remote", "audit", "info", "debug", "silly"];
    assert LevelNames[..7] == prefix;
    ForwardingByIndex(6, ["error", "warn", "remote", "audit", "info", "debug", "silly"]);
  }
}
