/** Whole histories of edits to one vault: what stays true from the first edit to the last, and why a
    derivation index is never handed out twice while its phrase is stored. */
module History {
  import opened Prelude
  import opened Configuration
  import opened VaultValue

  /** The contents after a list of edits, oldest first. */
  function Run(w: World, c: Contents, edits: seq<Edit>): (d: Contents)
    requires Inv(w, c)
    ensures Inv(w, d)
  {
    if edits == [] then c
    else
      var before := Run(w, c, edits[..|edits| - 1]);
      EditKeepsInvariant(w, before, edits[|edits| - 1]);
      Apply(w, before, edits[|edits| - 1])
  }

  lemma EmptyVaultIsValid(w: World)
    ensures Inv(w, EMPTY)
  {
  }

  lemma {:induction false} RunAppend(w: World, c: Contents, a: seq<Edit>, b: seq<Edit>)
    requires Inv(w, c)
    ensures Run(w, c, a + b) == Run(w, Run(w, c, a), b)
  {
    if b == [] {
      assert a + b == a;
    } else {
      var front := b[..|b| - 1];
      assert (a + b)[..|a + b| - 1] == a + front;
      RunAppend(w, c, a, front);
    }
  }

  // Some stored account uses the phrase at that index.
  ghost predicate Holds(c: Contents, entropy: Bytes, index: nat) {
    exists k :: 0 <= k < |c.accounts| && UsesPhrase(c, c.accounts[k], entropy) && c.accounts[k].kind.index == index
  }

  // Some copy of the phrase is stored.
  ghost predicate Known(c: Contents, entropy: Bytes) {
    exists k :: 0 <= k < |c.masters| && c.masters[k].entropy == entropy
  }

  // The phrase and index of the account an edit adds, if it adds a derived one.
  function Issued(w: World, c: Contents, e: Edit): Option<(Bytes, nat)>
    requires References(c)
  {
    var d := Apply(w, c, e);
    var last := |d.accounts| - 1;
    if |d.accounts| > |c.accounts| && d.accounts[last].kind.Derived?
       && d.accounts[last].kind.master < |d.masters|
    then Some((d.masters[d.accounts[last].kind.master].entropy, d.accounts[last].kind.index))
    else None
  }

  lemma HeldBelowHighWater(w: World, c: Contents, entropy: Bytes, index: nat)
    requires Shape(w, c) && Holds(c, entropy, index)
    ensures index < HighWater(c.masters, entropy)
  {
    var k :| 0 <= k < |c.accounts| && UsesPhrase(c, c.accounts[k], entropy) && c.accounts[k].kind.index == index;
    assert AccountOk(w, c.masters, c.accounts[k]);
  }

  // Two lists of masters agree on a phrase's high water when each counter on one side is matched on the other.
  lemma HighWaterAtMost(a: seq<Master>, b: seq<Master>, entropy: Bytes)
    requires forall k :: 0 <= k < |a| && a[k].entropy == entropy ==>
               exists j :: 0 <= j < |b| && b[j].entropy == entropy && a[k].next <= b[j].next
    ensures HighWater(a, entropy) <= HighWater(b, entropy)
  {
  }

  /** While a copy of the phrase stays stored, its high water never falls. */
  lemma HighWaterNeverFalls(w: World, c: Contents, e: Edit, entropy: Bytes)
    requires Inv(w, c)
    requires Known(Apply(w, c, e), entropy)
    ensures HighWater(c.masters, entropy) <= HighWater(Apply(w, c, e).masters, entropy)
  {
    var d := Apply(w, c, e);
    forall k | 0 <= k < |c.masters| && c.masters[k].entropy == entropy
      ensures exists j :: 0 <= j < |d.masters| && d.masters[j].entropy == entropy && c.masters[k].next <= d.masters[j].next
    {
      if e.EditRemove? && e.erase && d != c {
        var p := Find(c.accounts, e.name).value;
        var gone := c.masters[c.accounts[p].kind.master].entropy;
        if gone != entropy {
          WithoutAt(c.masters, gone, k);
          assert d.masters[|Without(c.masters[..k], gone)|] == c.masters[k];
        }
      } else {
        assert k < |d.masters| && d.masters[k].entropy == entropy && c.masters[k].next <= d.masters[k].next;
      }
    }
    HighWaterAtMost(c.masters, d.masters, entropy);
  }

  // A derived account gets the high water itself; only a fresh phrase entry starts at 0.
  lemma IssuedIndex(w: World, c: Contents, e: Edit)
    requires Inv(w, c) && Issued(w, c, e).Some?
    ensures var (entropy, index) := Issued(w, c, e).value;
      || (e.EditMaster? && index == 0)
      || (e.EditDerived? && index == HighWater(c.masters, entropy))
  {
  }

  lemma {:induction false} HighWaterGrows(w: World, c: Contents, edits: seq<Edit>, i: nat, j: nat, entropy: Bytes)
    requires Inv(w, c) && i <= j <= |edits|
    requires forall k :: i <= k <= j ==> Known(Run(w, c, edits[..k]), entropy)
    ensures HighWater(Run(w, c, edits[..i]).masters, entropy) <= HighWater(Run(w, c, edits[..j]).masters, entropy)
  {
    hide HighWater, Known, Inv, Apply;
    if i < j {
      HighWaterGrows(w, c, edits, i, j - 1, entropy);
      assert edits[..j][..j - 1] == edits[..j - 1];
      HighWaterNeverFalls(w, Run(w, c, edits[..j - 1]), edits[j - 1], entropy);
    }
  }

  /** No reuse, over any history. An index that any account of a phrase ever had, even an account
      deleted since, is below every index handed out later, as long as the phrase was not erased in
      between; the one exception is entering a phrase again, which starts at 0. */
  lemma IndicesAreFresh(w: World, c: Contents, edits: seq<Edit>, i: nat, j: nat, entropy: Bytes, earlier: nat, later: nat)
    requires Inv(w, c) && i <= j < |edits|
    requires Holds(Run(w, c, edits[..i]), entropy, earlier)
    requires forall k :: i <= k <= j ==> Known(Run(w, c, edits[..k]), entropy)
    requires Issued(w, Run(w, c, edits[..j]), edits[j]) == Some((entropy, later))
    ensures earlier < later || (edits[j].EditMaster? && later == 0)
  {
    HeldBelowHighWater(w, Run(w, c, edits[..i]), entropy, earlier);
    HighWaterGrows(w, c, edits, i, j, entropy);
    IssuedIndex(w, Run(w, c, edits[..j]), edits[j]);
  }

  // Only deleting a wallet with `erase` makes a stored phrase disappear.
  lemma OnlyErasureForgets(w: World, c: Contents, e: Edit, entropy: Bytes)
    requires Inv(w, c) && Known(c, entropy) && !Known(Apply(w, c, e), entropy)
    ensures e.EditRemove? && e.erase
    ensures forall k :: 0 <= k < |Apply(w, c, e).accounts| ==>
              !UsesPhrase(Apply(w, c, e), Apply(w, c, e).accounts[k], entropy)
  {
    var d := Apply(w, c, e);
    var k :| 0 <= k < |c.masters| && c.masters[k].entropy == entropy;
    assert !(k < |d.masters| && d.masters[k].entropy == entropy);   // so the masters were not just extended
  }

  // The index is the largest counter of the phrase of the wallet named `source`.
  ghost predicate NextOfSource(c: Contents, source: string, entropy: Bytes, index: nat) {
    exists p :: 0 <= p < |c.accounts| && c.accounts[p].name == source
      && UsesPhrase(c, c.accounts[p], entropy) && IsCounter(c, c.accounts[p], index)
  }

  /** What an edit hands out: a new phrase its index 0, a derived wallet the counter of its source's phrase;
      a failed edit and every other kind nothing. What was handed out is then held. */
  lemma WhatIsIssued(w: World, c: Contents, e: Edit)
    requires Inv(w, c)
    ensures References(c)
    ensures e.EditMaster? && AddMaster(w, c, e.name, e.entropy).Ok? ==> Issued(w, c, e) == Some((e.entropy, 0))
    ensures e.EditDerived? && AddDerived(w, c, e.name, e.source).Ok? ==> Issued(w, c, e).Some?
    ensures forall entropy, index :: Issued(w, c, e) == Some((entropy, index)) ==> Handed(w, c, e, entropy, index)
  {
    hide HighWater, Shape, Keyed, IsCounter;
    ShapeHasReferences(w, c);
    var d := Apply(w, c, e);
    match e
    case EditMaster(n, s) => if AddMaster(w, c, n, s).Ok? { MasterIsAdded(w, c, n, s); MasterHanded(w, c, e); }
    case EditDerived(n, s) => if AddDerived(w, c, n, s).Ok? { DerivedHanded(w, c, e); }
    case EditImported(n, k) => if AddImported(w, c, n, k).Ok? { ImportedIsAdded(w, c, n, k); }
    case EditRemove(n, x) => if RemoveAccount(c, n, x).Ok? { RemovalShrinks(c, n, x); }
    case EditRemember(k) =>
    case EditSettings(s) =>
  }

  // The edit handed out that index of that phrase.
  ghost predicate Handed(w: World, c: Contents, e: Edit, entropy: Bytes, index: nat)
    requires References(c)
  {
    && Holds(Apply(w, c, e), entropy, index)
    && ((e.EditMaster? && AddMaster(w, c, e.name, e.entropy).Ok? && entropy == e.entropy && index == 0)
        || (e.EditDerived? && AddDerived(w, c, e.name, e.source).Ok? && NextOfSource(c, e.source, entropy, index)))
  }

  lemma MasterHanded(w: World, c: Contents, e: Edit)
    requires Inv(w, c) && References(c) && e.EditMaster? && AddMaster(w, c, e.name, e.entropy).Ok?
    ensures Issued(w, c, e) == Some((e.entropy, 0)) && Handed(w, c, e, e.entropy, 0)
  {
    hide HighWater, Shape, Keyed;
    var d := Apply(w, c, e);
    assert UsesPhrase(d, d.accounts[|d.accounts| - 1], e.entropy);
  }

  lemma DerivedHanded(w: World, c: Contents, e: Edit)
    requires Inv(w, c) && References(c) && e.EditDerived? && AddDerived(w, c, e.name, e.source).Ok?
    ensures Issued(w, c, e).Some?
    ensures Handed(w, c, e, Issued(w, c, e).value.0, Issued(w, c, e).value.1)
  {
    hide HighWater, Keyed;
    var d, p := Apply(w, c, e), Find(c.accounts, e.source).value;
    var entropy := c.masters[c.accounts[p].kind.master].entropy;
    assert MasterOk(c.masters[c.accounts[p].kind.master]);
    assert UsesPhrase(d, d.accounts[|d.accounts| - 1], entropy);
    assert UsesPhrase(c, c.accounts[p], entropy) && IsCounter(c, c.accounts[p], HighWater(c.masters, entropy));
  }

  lemma RemovalShrinks(c: Contents, name: string, erase: bool)
    requires References(c) && RemoveAccount(c, name, erase).Ok?
    ensures |RemoveAccount(c, name, erase).value.accounts| < |c.accounts|
  {
    hide RecoveryPhraseUse;
    NoSuchWallet(c, name);
  }
}
