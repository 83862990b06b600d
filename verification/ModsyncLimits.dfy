// Two updates that go wrong: a mod without packs, and a last pack that is read in
// another directory.
module ModsyncLimits {
  import opened Seqs
  import opened Modsync

  // A mod without packs publishes nothing, whatever was converted and wherever the
  // exporter runs: no update ever gives it a pack.
  lemma ModWithoutPacks(conv: map<string, Release>, kept: set<string>, cwd: WorkingDir,
                        order: seq<Release>, published: seq<Release>, numbers: seq<string>)
    ensures Described(PassAll([], conv, kept), cwd, order, published, numbers) <==>
            order == [] && published == [] && numbers == []
  {
  }

  // For instance this one: version 1.0 was converted and is not published.
  lemma {:induction false} FirstReleaseStaysOut()
    ensures var conv := map["1.0" := Release("1.0", "first")];
            && Named(conv) && Described(PassAll([], conv, {"1.0"}), Here, [], [], [])
            && "1.0" in conv && Count([], "1.0") == 0
  {
  }

  // The directory of the process holds another last pack: it is written over the
  // stored one, while the hash is that of the stored one.
  lemma {:induction false} OtherLastPack()
    ensures var mine, other := [Release("1.0", "mine")], [Release("2.0", "other")];
            && Described(PassAll([mine], map[], {"1.0"}), Elsewhere(map[0 := other]), [], other, ["1.0"])
            && multiset(["1.0"]) != multiset(Versions(other))
  {
    var mine, other := [Release("1.0", "mine")], [Release("2.0", "other")];
    FlattenOne(mine);
    assert DropLast([mine]) == [] && DropLast(mine) == [];
    assert PassPack(mine, map[], {"1.0"}).releases == [] + mine == mine;
    assert PassAll([mine], map[], {"1.0"}) == PassedAll([] + [mine], map[]);
    assert [] + [mine] == [mine];
    VersionsOne(mine[0]);
    VersionsOne(other[0]);
    assert mine + [] == mine && other + [] == other && [] + other == other;
    assert "1.0" in multiset(["1.0"]) && "1.0" !in multiset(["2.0"]);
  }
}
