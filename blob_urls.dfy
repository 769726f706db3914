/**
 * The browser's object-URL store behind `URL.createObjectURL` and
 * `URL.revokeObjectURL`. Creating a URL mints a handle never issued before and
 * keeps the file reachable through it until the handle is revoked.
 */
module BlobUrls {

  /** A dropped file: its name (as `file.name` reports it) and its contents. */
  datatype File = File(name: string, bytes: seq<bv8>)

  /** An object URL ("blob:..."), identified by the order in which it was minted. */
  datatype BlobUrl = BlobUrl(id: nat)

  /** No handle appears twice. */
  predicate Distinct(hs: seq<BlobUrl>) {
    forall i, j :: 0 <= i < j < |hs| ==> hs[i] != hs[j]
  }

  /** Every handle of `hs` was minted at or after the store's counter stood at `from`. */
  predicate MintedSince(hs: seq<BlobUrl>, from: nat) {
    forall i :: 0 <= i < |hs| ==> from <= hs[i].id
  }

  class ObjectUrlStore {
    /** The id the next minted handle gets. */
    var next: nat
    /** The handles not yet revoked, with the file each one exposes. */
    var live: map<BlobUrl, File>
    /** Every revocation so far, in order. */
    var revoked: seq<BlobUrl>

    ghost predicate Valid()
      reads this
    {
      forall h :: h in live ==> h.id < next
    }

    constructor ()
      ensures Valid()
      ensures next == 0 && live == map[] && revoked == []
    {
      next := 0;
      live := map[];
      revoked := [];
    }

    /** `URL.createObjectURL(file)`. */
    method Create(file: File) returns (h: BlobUrl)
      requires Valid()
      modifies this
      ensures Valid()
      ensures h == BlobUrl(old(next)) && h !in old(live)
      ensures next == old(next) + 1
      ensures live == old(live)[h := file]
      ensures revoked == old(revoked)
    {
      h := BlobUrl(next);
      next := next + 1;
      live := live[h := file];
    }

    /** `URL.revokeObjectURL(h)`: the handle stops resolving; revoking a dead handle is harmless. */
    method Revoke(h: BlobUrl)
      requires Valid()
      modifies this
      ensures Valid()
      ensures next == old(next)
      ensures live == old(live) - {h}
      ensures revoked == old(revoked) + [h]
    {
      live := live - {h};
      revoked := revoked + [h];
    }
  }
}
