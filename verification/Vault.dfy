/** The vault in memory, changed in place. */
module Vault {
  import opened Prelude
  import opened Configuration
  import opened VaultValue
  import opened Audit

  class Vault {
    var config: Config
    var audit: Audit
    var savedConfig: Option<Config>   // what the file holds, so that every changed save is counted
    var masters: seq<Master>
    var accounts: seq<Account>
    var recipients: seq<Key32>
    var source: Option<Bytes>         // the ciphertext this vault was read from or last written as

    ghost function Value(): Contents
      reads this
    {
      Contents(config.settings, masters, accounts, recipients)
    }

    constructor ()
      ensures Value() == EMPTY && audit == NO_EDITS && savedConfig == None && source == None
    {
      config := Config("", DEFAULT_SETTINGS);
      audit := NO_EDITS;
      savedConfig, source := None, None;
      masters, accounts, recipients := [], [], [];
    }

    method EnsureNewName(name: string) returns (r: Option<VaultError>)
      ensures r == NameError(Value(), name)
    {
      if !ValidName(name) { return Some(BadName); }
      if Find(accounts, name).Some? { return Some(NameTaken); }
      if |accounts| >= MAX_ACCOUNTS { return Some(AccountLimit); }
      return None;
    }

    method AddMaster(w: World, name: string, entropy: Bytes) returns (r: Option<VaultError>)
      requires Inv(w, Value())
      modifies this`masters, this`accounts
      ensures Inv(w, Value())
      ensures match VaultValue.AddMaster(w, old(Value()), name, entropy)
              case Ok(c) => r == None && Value() == c
              case Err(e) => r == Some(e) && Value() == old(Value())
    {
      var bad := EnsureNewName(name);
      if bad.Some? { return bad; }
      if |masters| >= MAX_MASTERS { return Some(MasterLimit); }
      var pubkey := DeriveAddress(w, entropy, 0);
      if pubkey.None? { return Some(NotDerivable); }
      MasterKeepsInvariant(w, Value(), name, entropy);
      var master := |masters|;
      masters := masters + [Master(entropy, 1)];
      accounts := accounts + [Account(name, pubkey.value, Derived(master, 0))];
      return None;
    }

    method AddDerived(w: World, name: string, source: string) returns (r: Option<VaultError>)
      requires Inv(w, Value())
      modifies this`masters, this`accounts
      ensures Inv(w, Value())
      ensures match VaultValue.AddDerived(w, old(Value()), name, source)
              case Ok(c) => r == None && Value() == c
              case Err(e) => r == Some(e) && Value() == old(Value())
    {
      ghost var was := Value();
      var bad := EnsureNewName(name);
      if bad.Some? { return bad; }
      var position := Find(accounts, source);
      if position.None? { return Some(UnknownWallet); }
      if accounts[position.value].kind.Imported? { return Some(NoPhrase); }
      var master := accounts[position.value].kind.master;
      if master >= |masters| { return Some(BadReference); }
      var entropy := masters[master].entropy;
      var next := HighWater(masters, entropy);
      var pubkey := DeriveAddress(w, entropy, next);
      if pubkey.None? { return Some(NotDerivable); }
      DerivedKeepsInvariant(w, was, name, source);
      accounts := accounts + [Account(name, pubkey.value, Derived(master, next))];
      for index := 0 to |masters|
        invariant accounts == was.accounts + [Account(name, pubkey.value, Derived(master, next))]
        invariant |masters| == |was.masters| && master < |masters|
        invariant forall k :: 0 <= k < |masters| ==> masters[k].entropy == was.masters[k].entropy
        invariant forall k :: 0 <= k < index ==> masters[k] == Advance(was.masters, entropy, next + 1)[k]
        invariant forall k :: index <= k < |masters| ==> masters[k] == was.masters[k]
      {
        if masters[index].entropy == masters[master].entropy {
          masters := masters[index := masters[index].(next := next + 1)];
        }
      }
      assert masters == Advance(was.masters, entropy, next + 1);
      return None;
    }

    method AddImported(w: World, name: string, keypair: Bytes) returns (r: Option<VaultError>)
      requires Inv(w, Value())
      modifies this`accounts
      ensures Inv(w, Value())
      ensures match VaultValue.AddImported(w, old(Value()), name, keypair)
              case Ok(c) => r == None && Value() == c
              case Err(e) => r == Some(e) && Value() == old(Value())
    {
      var bad := EnsureNewName(name);
      if bad.Some? { return bad; }
      var pubkey := KeypairAddress(w, keypair);
      if pubkey.None? { return Some(BadKeypair); }
      EditKeepsInvariant(w, Value(), EditImported(name, keypair));
      accounts := accounts + [Account(name, pubkey.value, Imported(keypair))];
      return None;
    }

    method RememberRecipient(w: World, key: Key32)
      requires Inv(w, Value())
      modifies this`recipients
      ensures Inv(w, Value()) && Value() == Remember(old(Value()), key)
    {
      if key !in recipients && |recipients| < MAX_RECIPIENTS {
        recipients := recipients + [key];
      }
    }

    // Where the reverse removal loop has moved a master that stood at `m`, once it is down to `index`.
    static function Moved(before: seq<Master>, entropy: Bytes, index: nat, m: nat): nat
      requires index <= |before| && m <= |before|
    {
      if m <= index then m else index + |Without(before[index..m], entropy)|
    }

    static function MovedAccount(before: seq<Master>, entropy: Bytes, index: nat, a: Account): Account
      requires index <= |before| && (a.kind.Derived? ==> a.kind.master <= |before|)
    {
      if a.kind.Imported? then a
      else a.(kind := Derived(Moved(before, entropy, index, a.kind.master), a.kind.index))
    }

    // One turn of the loop: what is kept from `index` on, and how references above it shift.
    static lemma MovedStep(before: seq<Master>, entropy: Bytes, index: nat, m: nat)
      requires index < |before| && m <= |before|
      ensures before[index].entropy != entropy ==>
                Moved(before, entropy, index, m) == Moved(before, entropy, index + 1, m)
      ensures before[index].entropy == entropy ==>
                var was := Moved(before, entropy, index + 1, m);
                Moved(before, entropy, index, m) == if was > index then was - 1 else was
      ensures before[index].entropy != entropy ==>
                Without(before[index..], entropy) == [before[index]] + Without(before[index + 1..], entropy)
      ensures before[index].entropy == entropy ==>
                Without(before[index..], entropy) == Without(before[index + 1..], entropy)
    {
      assert before[index..][1..] == before[index + 1..];
      if m > index {
        assert before[index..m][1..] == before[index + 1..m];
      }
    }

    static lemma {:induction false} NothingMatches(masters: seq<Master>)
      requires forall k :: 0 <= k < |masters| ==> masters[k].entropy != []
      ensures Without(masters, []) == masters
    {
      if masters != [] {
        NothingMatches(masters[1..]);
        assert masters == [masters[0]] + masters[1..];
      }
    }

    static lemma NothingErased(masters: seq<Master>)
      requires forall k :: 0 <= k < |masters| ==> masters[k].entropy != []
      ensures Without(masters, []) == masters
      ensures forall a: Account :: Rebase(masters, [], a) == a
    {
      hide Without;
      NothingMatches(masters);
      forall a: Account
        ensures Rebase(masters, [], a) == a
      {
        if a.kind.Derived? && a.kind.master <= |masters| {
          NothingMatches(masters[..a.kind.master]);
        }
      }
    }

    static lemma InvBasics(w: World, c: Contents)
      requires Inv(w, c)
      ensures References(c) && |c.masters| <= MAX_MASTERS
      ensures forall k :: 0 <= k < |c.masters| ==> c.masters[k].entropy != []
    {
      ShapeHasReferences(w, c);
      assert forall k :: 0 <= k < |c.masters| ==> MasterOk(c.masters[k]);
    }

    method RemoveAccount(w: World, name: string, erasePhrase: bool) returns (r: Option<VaultError>)
      requires Inv(w, Value())
      modifies this`masters, this`accounts
      ensures Inv(w, Value())
      ensures match VaultValue.RemoveAccount(old(Value()), name, erasePhrase)
              case Ok(c) => r == None && Value() == c
              case Err(e) => r == Some(e) && Value() == old(Value())
    {
      hide Shape, Keyed, Without;
      ghost var was := Value();
      InvBasics(w, was);
      var usage := RecoveryPhraseUse(Contents(config.settings, masters, accounts, recipients), name);
      if usage.Err? { return Some(usage.error); }
      if erasePhrase && usage.value != UnusedAfterDeletion { return Some(PhraseStillUsed); }
      var index := Find(accounts, name).value;
      RemoveKeepsInvariant(w, was, name, erasePhrase);
      var erase := new bool[MAX_MASTERS](_ => false);
      if erasePhrase {
        MarkCopies(accounts[index].kind.master, erase);
      }
      // no stored phrase is empty, so [] stands for "erase nothing"
      ghost var entropy := if erasePhrase then masters[accounts[index].kind.master].entropy else [];
      accounts := accounts[..index] + accounts[index + 1..];
      ghost var rest := accounts;
      assert forall k :: 0 <= k < |rest| ==> rest[k] == was.accounts[if k < index then k else k + 1];
      EraseMasters(erase, entropy);
      if !erasePhrase {
        NothingErased(was.masters);
      }
      assert accounts == DeleteAt(was, index, erasePhrase).accounts;
      return None;
    }

    method MarkCopies(master: nat, erase: array<bool>)
      requires master < |masters| <= erase.Length
      modifies erase
      ensures forall k :: 0 <= k < |masters| ==> (erase[k] <==> masters[k].entropy == masters[master].entropy)
    {
      for i := 0 to |masters|
        invariant forall k :: 0 <= k < i ==> (erase[k] <==> masters[k].entropy == masters[master].entropy)
      {
        erase[i] := masters[i].entropy == masters[master].entropy;
      }
    }

    static function Lowered(a: Account, index: nat): Account {
      if a.kind.Derived? && a.kind.master > index then a.(kind := Derived(a.kind.master - 1, a.kind.index)) else a
    }

    // The inner loop of `remove_account`: the master at `index` is gone, so references above it drop by one.
    method LowerReferences(index: nat)
      modifies this`accounts
      ensures |accounts| == |old(accounts)|
      ensures forall k :: 0 <= k < |accounts| ==> accounts[k] == Lowered(old(accounts)[k], index)
    {
      ghost var before := accounts;
      for k := 0 to |accounts|
        invariant |accounts| == |before|
        invariant forall j :: 0 <= j < k ==> accounts[j] == Lowered(before[j], index)
        invariant forall j :: k <= j < |before| ==> accounts[j] == before[j]
      {
        if accounts[k].kind.Derived? && accounts[k].kind.master > index {
          accounts := accounts[k := accounts[k].(kind := Derived(accounts[k].kind.master - 1, accounts[k].kind.index))];
        }
      }
    }

    // What the reverse removal loop has done once it is down to `index`.
    static ghost predicate Progress(before: seq<Master>, rest: seq<Account>, entropy: Bytes, index: nat,
                                    masters: seq<Master>, accounts: seq<Account>)
    {
      && index <= |before|
      && masters == before[..index] + Without(before[index..], entropy)
      && |accounts| == |rest|
      && forall k :: 0 <= k < |rest| ==>
           (rest[k].kind.Derived? ==> rest[k].kind.master < |before|)
           && accounts[k] == MovedAccount(before, entropy, index, rest[k])
    }

    static lemma MastersStep(before: seq<Master>, entropy: Bytes, index: nat, masters: seq<Master>)
      requires index < |before| && masters == before[..index + 1] + Without(before[index + 1..], entropy)
      ensures index < |masters| && masters[index] == before[index]
      ensures before[..index] + Without(before[index..], entropy)
        == if before[index].entropy == entropy then masters[..index] + masters[index + 1..] else masters
    {
      hide Without;
      MovedStep(before, entropy, index, 0);
      var tail := Without(before[index + 1..], entropy);
      assert masters == before[..index] + [before[index]] + tail;
      assert masters[..index] == before[..index] && masters[index + 1..] == tail;
    }

    static lemma AccountStep(before: seq<Master>, entropy: Bytes, index: nat, a: Account)
      requires index < |before| && (a.kind.Derived? ==> a.kind.master < |before|)
      ensures MovedAccount(before, entropy, index, a)
        == var was := MovedAccount(before, entropy, index + 1, a);
           if before[index].entropy == entropy then Lowered(was, index) else was
    {
      if a.kind.Derived? {
        MovedStep(before, entropy, index, a.kind.master);
      }
    }

    static lemma ProgressStep(before: seq<Master>, rest: seq<Account>, entropy: Bytes, index: nat,
                              masters: seq<Master>, accounts: seq<Account>,
                              masters': seq<Master>, accounts': seq<Account>)
      requires index < |before| && Progress(before, rest, entropy, index + 1, masters, accounts)
      requires index < |masters| && |accounts'| == |accounts|
      requires masters' == if before[index].entropy == entropy then masters[..index] + masters[index + 1..] else masters
      requires forall k :: 0 <= k < |accounts| ==>
                 accounts'[k] == if before[index].entropy == entropy then Lowered(accounts[k], index) else accounts[k]
      ensures Progress(before, rest, entropy, index, masters', accounts')
    {
      MastersStep(before, entropy, index, masters);
      forall k | 0 <= k < |rest|
        ensures accounts'[k] == MovedAccount(before, entropy, index, rest[k])
      {
        AccountStep(before, entropy, index, rest[k]);
      }
    }

    // The outer loop of `remove_account`, from the last master down to the first.
    method EraseMasters(erase: array<bool>, ghost entropy: Bytes)
      requires |masters| <= erase.Length
      requires forall k :: 0 <= k < |masters| ==> (erase[k] <==> masters[k].entropy == entropy)
      requires References(Value())
      modifies this`masters, this`accounts
      ensures masters == Without(old(masters), entropy)
      ensures |accounts| == |old(accounts)|
      ensures forall k :: 0 <= k < |accounts| ==> accounts[k] == Rebase(old(masters), entropy, old(accounts)[k])
    {
      ghost var before, rest := masters, accounts;
      assert forall k :: 0 <= k < |rest| && rest[k].kind.Derived? ==> rest[k].kind.master < |before|;
      var index := |masters|;
      while index > 0
        invariant 0 <= index <= |before| && Progress(before, rest, entropy, index, masters, accounts)
      {
        index := index - 1;
        ghost var masters0, accounts0 := masters, accounts;
        MastersStep(before, entropy, index, masters);
        if erase[index] {
          masters := masters[..index] + masters[index + 1..];
          LowerReferences(index);
        }
        ProgressStep(before, rest, entropy, index, masters0, accounts0, masters, accounts);
      }
      FullyMoved(before, rest, entropy, masters, accounts);
    }

    static lemma FullyMoved(before: seq<Master>, rest: seq<Account>, entropy: Bytes, masters: seq<Master>, accounts: seq<Account>)
      requires Progress(before, rest, entropy, 0, masters, accounts)
      ensures masters == Without(before, entropy)
      ensures forall k :: 0 <= k < |rest| ==> accounts[k] == Rebase(before, entropy, rest[k])
    {
      assert before[0..] == before;
      forall k | 0 <= k < |rest|
        ensures accounts[k] == Rebase(before, entropy, rest[k])
      {
        if rest[k].kind.Derived? {
          assert before[0..rest[k].kind.master] == before[..rest[k].kind.master];
        }
      }
    }
  }
}
