/** The instructions the wallet builds. Program addresses are constants of the network. */
module Instructions {
  import opened Prelude

  datatype Programs = Programs(
    system: Key32, token: Key32, token2022: Key32, associatedToken: Key32, computeBudget: Key32,
    nativeMint: Key32, nativeMint2022: Key32)

  datatype AccountMeta = AccountMeta(pubkey: Key32, signer: bool, writable: bool)

  datatype Instruction = Instruction(program: Key32, accounts: seq<AccountMeta>, data: Bytes)

  const MAX_COMPUTE_UNITS: u32 := 1_400_000

  function BurnChecked(account: Key32, mint: Key32, authority: Key32, amount: u64, decimals: byte, program: Key32): Instruction {
    Instruction(program,
      [AccountMeta(account, false, true), AccountMeta(mint, false, true), AccountMeta(authority, true, false)],
      [15] + LE(amount, 8) + [decimals])
  }

  function CloseTokenAccount(account: Key32, authority: Key32, program: Key32): Instruction {
    Instruction(program,
      [AccountMeta(account, false, true), AccountMeta(authority, false, true), AccountMeta(authority, true, false)],
      [9])
  }

  function SystemTransfer(ids: Programs, source: Key32, target: Key32, lamports: u64): Instruction {
    Instruction(ids.system,
      [AccountMeta(source, true, true), AccountMeta(target, false, true)],
      LE(2, 4) + LE(lamports, 8))
  }

  function SetComputeUnitLimit(ids: Programs, limit: u32): Instruction {
    Instruction(ids.computeBudget, [], [2] + LE(limit, 4))
  }

  /** What a signed burn burns can be read back from it: the account and mint, the amount and its decimals;
      only the authority signs, and the mint and account are what it writes to. */
  lemma BurnReadsBack(account: Key32, mint: Key32, authority: Key32, amount: u64, decimals: byte, program: Key32)
    ensures var ix := BurnChecked(account, mint, authority, amount, decimals, program);
      && ix.program == program && |ix.data| == 10 && ix.data[0] == 15 && FromLE(ix.data[1..9]) == amount && ix.data[9] == decimals
      && |ix.accounts| == 3 && ix.accounts[0].pubkey == account && ix.accounts[1].pubkey == mint
      && (forall i :: 0 <= i < 3 ==> (ix.accounts[i].signer <==> i == 2) && (ix.accounts[i].writable <==> i < 2))
      && ix.accounts[2].pubkey == authority
  {
    hide LE, FromLE, Pow256;
    FieldWidths();
    FieldRoundTrip(amount, 8);
    var ix := BurnChecked(account, mint, authority, amount, decimals, program);
    assert ix.data[1..9] == LE(amount, 8);
  }

  lemma TransferReadsBack(ids: Programs, source: Key32, target: Key32, lamports: u64)
    ensures var ix := SystemTransfer(ids, source, target, lamports);
      && ix.program == ids.system && |ix.data| == 12 && FromLE(ix.data[..4]) == 2 && FromLE(ix.data[4..]) == lamports
      && |ix.accounts| == 2 && ix.accounts[0] == AccountMeta(source, true, true) && ix.accounts[1] == AccountMeta(target, false, true)
  {
    hide LE, FromLE, Pow256;
    FieldWidths();
    FieldRoundTrip(lamports, 8);
    FieldRoundTrip(2, 4);
    var ix := SystemTransfer(ids, source, target, lamports);
    assert ix.data[..4] == LE(2, 4) && ix.data[4..] == LE(lamports, 8);
  }

  /** A close is the single byte 9 over the account, the authority as the place the lamports go, and the
      authority as the only signer. */
  lemma CloseReadsBack(account: Key32, authority: Key32, program: Key32)
    ensures var ix := CloseTokenAccount(account, authority, program);
      && ix.program == program && ix.data == [9] && |ix.accounts| == 3
      && ix.accounts[0].pubkey == account && ix.accounts[1].pubkey == authority && ix.accounts[2].pubkey == authority
      && (forall i :: 0 <= i < 3 ==> (ix.accounts[i].signer <==> i == 2) && (ix.accounts[i].writable <==> i < 2))
  {
  }

  lemma LimitReadsBack(ids: Programs, limit: u32)
    ensures var ix := SetComputeUnitLimit(ids, limit); 
      && ix.program == ids.computeBudget && |ix.data| == 5 && ix.data[0] == 2 && ix.accounts == []
      && FromLE(ix.data[1..5]) == limit
  {
    hide LE, FromLE, Pow256;
    FieldWidths();
    FieldRoundTrip(limit, 4);
    assert SetComputeUnitLimit(ids, limit).data[1..5] == LE(limit, 4);
  }
}
