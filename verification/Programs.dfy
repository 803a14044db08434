/** The program selector of the indexer. */
module Programs {
  import opened Basics

  datatype AccountSelector = AccountSelector(included: seq<Pubkey>, excluded: seq<Pubkey>) {
    /** A non-empty include list decides alone; otherwise everything but the exclude list is kept. */
    predicate IsSelected(program: Pubkey)
    {
      if included == [] then program !in excluded else program in included
    }

    /** `getVoteAccounts` needs both the Vote and the Stake program. */
    predicate SupportsVoteAccounts()
    {
      IsSelected(VoteProgram()) && IsSelected(StakeProgram())
    }

    /** `simulateTransaction` needs an index without any filter. */
    predicate SupportsSimulation()
    {
      included == [] && excluded == []
    }
  }

  function SystemProgram(): Pubkey
  {
    seq(32, i => 0)
  }

  function VoteProgram(): Pubkey
  {
    [7, 97, 72, 29, 53, 116, 116, 187, 124, 77, 118, 36, 235, 211, 189, 179,
     216, 53, 94, 115, 209, 16, 67, 252, 13, 163, 83, 128, 0, 0, 0, 0]
  }

  function StakeProgram(): Pubkey
  {
    [6, 161, 216, 23, 145, 55, 84, 42, 152, 52, 55, 189, 254, 42, 122, 178,
     85, 127, 83, 92, 138, 120, 114, 43, 104, 164, 157, 192, 0, 0, 0, 0]
  }
}
