/** Two proposals on one disk, both unfinished: how that comes about. */
module ProposalStack {
  import opened Base
  import opened Paths
  import opened ChangeSet
  import opened ChangeSetApply
  import opened ChangeSetLaws
  import opened Synapse
  import opened SidecarSpec
  import opened SidecarFaults
  import opened StudioDisk
  import opened StudioInvariant
  import opened StudioLaws
  import opened StudioCalls
  import opened StudioLedger

  /** The disk after a first request whose begin_proposal failed at once in a process that lives on, with a
      second proposal put on top. */
  function Stacked(rules: Rules, first: Site, one: Meta, two: Meta): Disk
  {
    Prepared(Prepared(Imported(rules, first), one), two)
  }

  /** Any two proposals for the imported files can be stacked: the first request leaves a sound disk, the call
      of begin_proposal may fail before its first write, and memory then shows no proposal that would keep
      the second one out. */
  lemma StackIsReachable(rules: Rules, first: Site, one: Meta, two: Meta)
    requires Fresh(Imported(rules, first), one) && Fresh(Imported(rules, first), two)
    requires one.id != two.id && one.planned != two.planned
    ensures var d := Prepared(Imported(rules, first), one);
            && Coherent(d) && Ledger(d) && Quiet(d) && !Idle(d) && Fresh(d, two)
            && Cut(BeginRun(d.sidecar, InputOf(one, first.files), one.recordedAt), d.sidecar, Err(Storage))
    ensures Ledger(Stacked(rules, first, one, two)) && !Tidy(Stacked(rules, first, one, two).entries)
  {
    var start := Imported(rules, first);
    var d := Prepared(start, one);
    ImportedIsCoherent(rules, first);
    ImportedIsLedger(rules, first);
    hide Coherent, Ledger, Quiet, MetaOk;
    PrepareKeeps(start, one);
    PrepareKeepsLedger(start, one);
    PrepareKeepsLedger(d, two);
    TopIsUnfinished(d, two);
  }

  // ---- One such pair ----

  function Zeros(): string { seq(64, _ => '0') }

  function Same(s: string): string { s }

  function ZeroHash(content: Bytes): string { Zeros() }

  predicate AnySite(files: Files) { true }

  const RULES := Rules(Text(Same, Same, Same, ZeroHash), AnySite)

  const ONE_FILE := Site("rev_0", map["a" := []])

  const CLEARED := [Delete("a", Zeros())]

  function Clearing(id: OperationKey, planned: Revision): Meta
  {
    Meta(id, ONE_FILE, planned, map[], CLEARED, "", 0, false)
  }

  lemma PlainPath()
    ensures ValidPath(RULES.text, "a")
  {
    assert Split("a", '/') == ["a"] && Split("a", '.') == ["a"];
  }

  lemma ClearingIsAccepted()
    ensures Accepts(RULES.text, CLEARED, ONE_FILE.files)
  {
    PlainPath();
    assert ValidHash(Zeros());
    hide ValidPath, SafePath, ReservedPath, ValidHash, Zeros;
    assert Fault(RULES.text, CLEARED[0]) == None;
    assert CLEARED[..0] == [];
    assert GeneratedTotal(CLEARED) == 0;
    assert HasHash(RULES.text, ONE_FILE.files, "a", Zeros());
  }

  lemma ClearingIsPermitted()
    ensures Permits(RULES, CLEARED, ONE_FILE.files, map[])
  {
    PlainPath();
    ClearingIsAccepted();
    hide ValidPath, Accepts;
    assert CLEARED[..0] == [];
    assert ONE_FILE.files - {"a"} == map[];
    assert Apply(CLEARED[..0], ONE_FILE.files) == Some(ONE_FILE.files);
  }

  lemma TwoProposalsStack()
    ensures Ledger(Stacked(RULES, ONE_FILE, Clearing("p1", "rev_1"), Clearing("p2", "rev_2")))
    ensures !Tidy(Stacked(RULES, ONE_FILE, Clearing("p1", "rev_1"), Clearing("p2", "rev_2")).entries)
  {
    ClearingIsPermitted();
    hide Permits, Ledger;
    StackIsReachable(RULES, ONE_FILE, Clearing("p1", "rev_1"), Clearing("p2", "rev_2"));
  }
}
