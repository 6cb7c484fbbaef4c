/**
 * The static level table: each level's rank (lower is more severe) and its console
 * colour, both in declaration order (constants.js).
 */
module Constants {
  import opened Wrappers

  /** One entry of the `levels` table. */
  datatype LevelRank = LevelRank(name: string, rank: int)

  /** One entry of the `levelColors` table. */
  datatype LevelColor = LevelColor(name: string, color: string)

  /** `levels`, in declaration order (constants.js:3-24). */
  const Levels: seq<LevelRank> := [
    LevelRank("error", 0),
    LevelRank("warn", 1),
    LevelRank("remote", 2),
    LevelRank("audit", 3),
    LevelRank("info", 4),
    LevelRank("debug", 5),
    LevelRank("silly", 7)
  ]

  /** The level names as `Object.keys(levels)` lists them. */
  const LevelNames: seq<string> := ["error", "warn", "remote", "audit", "info", "debug", "silly"]

  /** `levelColors`, in declaration order (constants.js:26-34). */
  const LevelColors: seq<LevelColor> := [
    LevelColor("error", "red"),
    LevelColor("warn", "yellow"),
    LevelColor("remote", "magenta"),
    LevelColor("audit", "green"),
    LevelColor("info", "cyan"),
    LevelColor("debug", "reset"),
    LevelColor("silly", "gray")
  ]

  /** The level names of a rank table, in table order (`Object.keys`). */
  function Names(table: seq<LevelRank>): (r: seq<string>)
    ensures |r| == |table|
    ensures forall i {:trigger r[i]} :: 0 <= i < |table| ==> r[i] == table[i].name
  {
    if |table| == 0 then [] else [table[0].name] + Names(table[1..])
  }

  /** The keys of a JavaScript object are distinct. */
  predicate DistinctNames(table: seq<LevelRank>) {
    forall i, j :: 0 <= i < j < |table| ==> table[i].name != table[j].name
  }

  /** Ranks grow strictly along the declaration order. */
  predicate StrictlyIncreasing(table: seq<LevelRank>) {
    forall i, j :: 0 <= i < j < |table| ==> table[i].rank < table[j].rank
  }

  /** The property read `levels[name]`: the rank of the first entry called `name`, if any. */
  function RankOf(table: seq<LevelRank>, name: string): (r: Option<int>)
    ensures r.Some? <==> name in Names(table)
    ensures r.Some? ==> name in Names(table) && r.value == table[IndexIn(table, name)].rank
  {
    if |table| == 0 then None
    else if table[0].name == name then Some(table[0].rank)
    else RankOf(table[1..], name)
  }

  /** The first index at which `name` occurs in the table. */
  function IndexIn(table: seq<LevelRank>, name: string): (i: nat)
    requires name in Names(table)
    ensures i < |table| && table[i].name == name
  {
    if table[0].name == name then 0
    else 1 + IndexIn(table[1..], name)
  }

  /** The colour of the first entry called `name`, if any. */
  function ColorOf(table: seq<LevelColor>, name: string): (r: Option<string>)
    ensures r.Some? <==> exists i :: 0 <= i < |table| && table[i].name == name
    ensures r.Some? ==> exists i :: 0 <= i < |table| && table[i].name == name && table[i].color == r.value
  {
    if |table| == 0 then None
    else if table[0].name == name then Some(table[0].color)
    else ColorOf(table[1..], name)
  }

  /** In a table with distinct names, `levels[name]` finds the entry's own rank. */
  lemma {:induction false} RankOfEntry(table: seq<LevelRank>, i: nat)
    requires DistinctNames(table)
    requires i < |table|
    ensures RankOf(table, table[i].name) == Some(table[i].rank)
  {
    if i > 0 {
      assert table[0].name != table[i].name;
      assert table[1..][i - 1] == table[i];
      RankOfEntry(table[1..], i - 1);
    }
  }

  /** The level names, in declaration order. */
  lemma LevelNamesInOrder()
    ensures Names(Levels) == LevelNames
  {
  }

  /** The level table is a JavaScript object, so its keys are distinct. */
  lemma LevelNamesDistinct()
    ensures DistinctNames(Levels)
  {
  }

  /** Ranks strictly increase in declaration order: error 0 < warn 1 < ... < silly 7. */
  lemma RanksStrictlyIncrease()
    ensures StrictlyIncreasing(Levels)
  {
  }

  /** The rank `levels[name]` finds for each declared level. */
  lemma LevelRanks()
    ensures RankOf(Levels, "error") == Some(0) && RankOf(Levels, "warn") == Some(1)
    ensures RankOf(Levels, "remote") == Some(2) && RankOf(Levels, "audit") == Some(3)
    ensures RankOf(Levels, "info") == Some(4) && RankOf(Levels, "debug") == Some(5)
    ensures RankOf(Levels, "silly") == Some(7)
  {
    LevelNamesDistinct();
    RankOfEntry(Levels, 0);
    RankOfEntry(Levels, 1);
    RankOfEntry(Levels, 2);
    RankOfEntry(Levels, 3);
    RankOfEntry(Levels, 4);
    RankOfEntry(Levels, 5);
    RankOfEntry(Levels, 6);
  }

  /** Every rank in the table is one of the seven declared values. */
  lemma AllRanksIn()
    ensures forall i :: 0 <= i < |Levels| ==> Levels[i].rank in {0, 1, 2, 3, 4, 5, 7}
  {
  }

  /** Ranks need not be contiguous: nothing has rank 6, although 5 and 7 are used. */
  lemma RankSixIsUnused()
    ensures forall i :: 0 <= i < |Levels| ==> Levels[i].rank != 6
    ensures RankOf(Levels, "debug") == Some(5) && RankOf(Levels, "silly") == Some(7)
  {
    AllRanksIn();
    LevelRanks();
  }

  /** `error` carries the minimum rank 0, which is a real threshold and not "unset". */
  lemma ErrorHasMinimumRank()
    ensures RankOf(Levels, "error") == Some(0)
    ensures forall i :: 0 <= i < |Levels| ==> Levels[i].rank >= RankOf(Levels, "error").value
  {
    AllRanksIn();
    LevelRanks();
  }

  /** Both tables name the same levels in the same order, so every level has a colour. */
  lemma EveryLevelHasColor()
    ensures |LevelColors| == |Levels|
    ensures forall i :: 0 <= i < |Levels| ==> LevelColors[i].name == Levels[i].name
    ensures forall n :: n in Names(Levels) ==> ColorOf(LevelColors, n).Some?
  {
    LevelNamesInOrder();
    forall n | n in Names(Levels)
      ensures ColorOf(LevelColors, n).Some?
    {
      var i :| 0 <= i < |LevelNames| && LevelNames[i] == n;
      assert LevelColors[i].name == n;
    }
  }

  /** `remote` and `audit` are table entries ranked strictly between `warn` and `info`. */
  lemma MandatoryLevelsRanked()
    ensures RankOf(Levels, "remote").Some? && RankOf(Levels, "audit").Some?
    ensures RankOf(Levels, "warn").value < RankOf(Levels, "remote").value
    ensures RankOf(Levels, "remote").value < RankOf(Levels, "audit").value
    ensures RankOf(Levels, "audit").value < RankOf(Levels, "info").value
  {
    LevelRanks();
  }
}
