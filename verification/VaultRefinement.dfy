/** The chunked vault as the simple one: what the two-store model assumes of a vault, derived for the macOS one.

    A vault call can stop anywhere, and still a reader sees it done or not begun. `encode` turns a secret into the
    bytes that are stored (`str.encode`); it tells secrets apart and stores none as no bytes. */
module VaultRefinement {
  import opened Wrappers
  import opened References
  import opened Documents
  import opened KeychainLines
  import opened MacOSVault
  import opened KeychainVault

  /** The value a reader gets under a reference, if any. */
  function Held(items: Items, reference: string): Option<seq<Byte>> {
    var reading := Read(items, reference);
    if reading.Value? then Some(reading.data) else None
  }

  /** The items hold exactly the secrets of the simple vault. */
  ghost predicate Represents(items: Items, vault: map<Reference, Secret>, encode: Secret -> seq<Byte>) {
    forall r: Reference {:trigger RenderReference(r)} :: IsCanonical(r) ==>
      Held(items, RenderReference(r)) == if r in vault then Some(encode(vault[r])) else None
  }

  // References as accounts

  lemma RenderedApart(a: Reference, b: Reference)
    requires IsCanonical(a) && IsCanonical(b) && RenderReference(a) == RenderReference(b)
    ensures a == b
  {
    hide ParseReference, RenderReference, IsCanonical;
    ParseRender(a);
    ParseRender(b);
  }

  lemma NoHashes(reference: Reference)
    requires IsCanonical(reference)
    ensures '#' !in RenderReference(reference)
  {
    hide IsCanonicalUuid, Field.Name;
    UuidHasNoHash(reference.profileId);
    UuidHasNoHash(reference.credentialId);
    NameHasNoHash(reference.field);
  }

  lemma UuidHasNoHash(text: string)
    requires IsCanonicalUuid(text)
    ensures '#' !in text
  {
    forall i | 0 <= i < |text| ensures text[i] != '#' {
      assert if i == 8 || i == 13 || i == 18 || i == 23 then text[i] == '-' else IsLowerHex(text[i]);
    }
  }

  lemma NameHasNoHash(field: Field)
    ensures '#' !in field.Name()
  {
  }

  // Entries that did not change

  lemma {:induction false} SamePieces(before: Items, after: Items, reference: string, from: nat, count: nat)
    requires forall index: nat {:trigger PieceAccount(reference, index)} :: Same(before, after, PieceAccount(reference, index))
    ensures PiecesFrom(after, reference, from, count) == PiecesFrom(before, reference, from, count)
    decreases count - from
  {
    if from < count {
      SamePieces(before, after, reference, from + 1, count);
      assert Same(before, after, PieceAccount(reference, from));
    }
  }

  lemma OthersHeld(before: Items, after: Items, reference: string, other: string)
    requires OthersSame(before, after, reference) && '#' !in other && other != reference
    ensures Held(after, other) == Held(before, other)
  {
    forall index: nat ensures Same(before, after, PieceAccount(other, index)) {
    }
    HeadAccount(other);
    assert Same(before, after, PieceAccount(other, 0));
    if other in before {
      SamePieces(before, after, other, 1, before[other].count);
    }
  }

  // Storing

  /** Storing a secret under a fresh reference, stopped anywhere, stores it or does nothing. */
  lemma WriteRefines(before: Items, after: Items, vault: map<Reference, Secret>, reference: Reference, value: Secret,
                     encode: Secret -> seq<Byte>)
    requires IsCanonical(reference) && Represents(before, vault, encode) && RenderReference(reference) !in before
    requires OthersSame(before, after, RenderReference(reference))
    requires Read(after, RenderReference(reference)) in {Missing, Value(encode(value))}
    ensures Represents(after, if Read(after, RenderReference(reference)) == Missing then vault
                              else vault[reference := value], encode)
    ensures reference !in vault
  {
    hide IsCanonical, OthersSame, RenderReference;
    var account := RenderReference(reference);
    assert Held(before, account) == None;
    NoHashes(reference);
    forall r: Reference | IsCanonical(r) && r != reference
      ensures Held(after, RenderReference(r)) == Held(before, RenderReference(r)) {
      NoHashes(r);
      if RenderReference(r) == account {
        RenderedApart(r, reference);
      }
      OthersHeld(before, after, account, RenderReference(r));
    }
  }

  // Deleting

  lemma {:induction false} PieceMissing(items: Items, reference: string, from: nat, count: nat, missing: nat)
    requires from <= missing < count && PieceAccount(reference, missing) !in items
    ensures PiecesFrom(items, reference, from, count).None?
    decreases missing - from
  {
    if from < missing {
      PieceMissing(items, reference, from + 1, count, missing);
    }
  }

  /** From its first step on, a delete of an entry with its head leaves nothing that can be read. */
  lemma StoppedDeleteReads(items: Items, reference: string, k: nat)
    requires k <= |DeleteOrder(items, reference)|
    ensures var after := Without(items, reference, DeleteOrder(items, reference)[..k]);
            Held(after, reference) == if reference in items && k == 0 then Held(items, reference) else None
  {
    hide Without, PieceAccount;
    var order := DeleteOrder(items, reference);
    var after := Without(items, reference, order[..k]);
    HeadAccount(reference);
    WithoutHolds(items, reference, order[..k], 0);
    if reference in items {
      if k == 0 {
        WithoutNone(items, reference, order);
      } else {
        var last := |order| - 1;
        assert order[..k][0] == last;
        WithoutHolds(items, reference, order[..k], last);
        HeadStays(items, reference, order[..k]);
        if last > 0 && reference in after {
          PieceMissing(after, reference, 1, |order|, last);
        }
      }
    }
  }

  lemma HeadStays(items: Items, reference: string, indices: seq<nat>)
    ensures var after := Without(items, reference, indices); reference in after ==> after[reference] == items[reference]
  {
  }

  /** Deleting a secret, stopped anywhere, erases it or does nothing. */
  lemma DeleteRefines(before: Items, after: Items, vault: map<Reference, Secret>, reference: Reference,
                      encode: Secret -> seq<Byte>)
    requires IsCanonical(reference) && Represents(before, vault, encode)
    requires OthersSame(before, after, RenderReference(reference))
    requires DeleteStopped(before, after, RenderReference(reference))
    ensures Represents(after, vault, encode) || Represents(after, vault - {reference}, encode)
  {
    hide IsCanonical, OthersSame, RenderReference, DeleteOrder, Without, Held;
    var account := RenderReference(reference);
    var order := DeleteOrder(before, account);
    var k: nat :| k <= |order| && after == Without(before, account, order[..k]);
    StoppedDeleteReads(before, account, k);
    NoHashes(reference);
    forall r: Reference | IsCanonical(r) && r != reference
      ensures Held(after, RenderReference(r)) == Held(before, RenderReference(r)) {
      NoHashes(r);
      if RenderReference(r) == account {
        RenderedApart(r, reference);
      }
      OthersHeld(before, after, account, RenderReference(r));
    }
    if Held(after, account) == Held(before, account) {
      assert Represents(after, vault, encode);
    } else {
      assert Represents(after, vault - {reference}, encode);
    }
  }

  // The vault's own operations

  /** `_label`. */
  function Label(reference: Reference): string {
    "Kantrip " + reference.field.Name() + " (profile " + reference.profileId + ")"
  }

  /** `MacOSVault.set`, for a reference that was never stored: what `Stores.Connection.SetSecret` takes for granted. */
  method Set(vault: Vault, reference: Reference, value: Secret, encode: Secret -> seq<Byte>,
             ghost simple: map<Reference, Secret>)
    returns (saved: Result<(), VaultError>)
    requires IsCanonical(reference) && encode(value) != [] && Represents(vault.items, simple, encode)
    requires RenderReference(reference) !in vault.items
    modifies vault`items
    ensures Represents(vault.items, simple, encode) || Represents(vault.items, simple[reference := value], encode)
    ensures saved.Ok? ==> Represents(vault.items, simple[reference := value], encode)
  {
    hide IsCanonical, RenderReference, Represents, OthersSame, WriteStopped;
    NoHashes(reference);
    saved := vault.Write(RenderReference(reference), Label(reference), encode(value));
    WriteRefines(old(vault.items), vault.items, simple, reference, value, encode);
  }

  /** `MacOSVault.get`, up to decoding. */
  method Get(vault: Vault, reference: Reference, encode: Secret -> seq<Byte>, ghost simple: map<Reference, Secret>)
    returns (data: Result<Option<seq<Byte>>, VaultError>)
    requires IsCanonical(reference) && Represents(vault.items, simple, encode)
    ensures data.Ok? ==> data.value == if reference in simple then Some(encode(simple[reference])) else None
  {
    hide IsCanonical, RenderReference;
    data := vault.ReadEntry(RenderReference(reference));
    assert Held(vault.items, RenderReference(reference)) ==
           if reference in simple then Some(encode(simple[reference])) else None;
  }

  /** `MacOSVault.delete`: what `Stores.Connection.DeleteSecret` takes for granted. */
  method Delete(vault: Vault, reference: Reference, encode: Secret -> seq<Byte>, ghost simple: map<Reference, Secret>)
    returns (done: Result<(), VaultError>)
    requires IsCanonical(reference) && Represents(vault.items, simple, encode)
    modifies vault`items
    ensures Represents(vault.items, simple, encode) || Represents(vault.items, simple - {reference}, encode)
    ensures done.Ok? ==> Represents(vault.items, simple - {reference}, encode)
  {
    hide IsCanonical, RenderReference, Represents, OthersSame, DeleteStopped, DeleteOrder, Without, Held;
    NoHashes(reference);
    done := vault.Delete(RenderReference(reference));
    DeleteRefines(old(vault.items), vault.items, simple, reference, encode);
    if done.Ok? {
      WholeDeleteReads(old(vault.items), vault.items, RenderReference(reference));
      ErasedRepresents(vault.items, simple, reference, encode);
    }
  }

  lemma WholeDeleteReads(before: Items, after: Items, reference: string)
    requires after == Without(before, reference, DeleteOrder(before, reference))
    requires reference in before ==> before[reference].count > 0
    ensures Held(after, reference) == None
  {
    hide Without, Held;
    var order := DeleteOrder(before, reference);
    assert order[..|order|] == order;
    StoppedDeleteReads(before, reference, |order|);
  }

  lemma ErasedRepresents(items: Items, simple: map<Reference, Secret>, reference: Reference, encode: Secret -> seq<Byte>)
    requires IsCanonical(reference) && Held(items, RenderReference(reference)) == None
    requires Represents(items, simple, encode) || Represents(items, simple - {reference}, encode)
    ensures Represents(items, simple - {reference}, encode)
  {
    hide IsCanonical, RenderReference, Held;
  }
}
