/** The transaction of a metadata operation, run by the commit protocol. */
module MetadataCommit {
  import opened TwoPhaseCommit
  import opened FlatFile
  import opened FileSystem
  import opened StoredFiles
  import opened Metadata

  /** When the nodes hold the files an operation has read, every run of its transaction that ends
      at rest performs the operation on what they hold: as a whole when it commits, and without
      changing a byte when it does not. */
  lemma TransactionPerforms(bs: nat, s: State, run: seq<Action>, t: nat, op: Op, inputs: seq<Input>,
                            files: Files, files': Files)
    requires bs > 0 && WellPosed(bs, files, op) && ReplyOf(bs, files, op, true) == Ok && Sends(bs, files, op, inputs)
    requires Idle(s) && ValidRun(s, run) && AtRest(Final(s, run)) && RunFromRequests(bs, run, map[t := inputs])
    requires StoresAll(s, files) && StoresAll(Final(s, run), files')
    ensures var commit := History(s, run) != [];
            Performed(bs, files, op, commit, Metadata.Decided(commit), files')
  {
    var commit := History(s, run) != [];
    OneTransaction(bs, s, run, t, inputs, files, files');
    assert Outcome(bs, files, inputs, commit, files');
    OutcomePerforms(bs, files, op, inputs, commit, files');
  }
}
