/** The published status list: one bit for each credential, packed from the least
    significant bit of each byte (cmd/revoked/server/sdjwt.go,
    cmd/revoked/services/attestations.go). */
module StatusList {
  import opened Attestations
  import Theorems = AttestationsTheorems

  const MIN_SIZE: nat := 1024

  /** What a packed list says of a position it reaches. */
  predicate BitAt(bits: seq<bv8>, idx: nat)
    requires idx < 8 * |bits|
  {
    bits[idx / 8] & (1 << (idx % 8)) != 0
  }

  lemma SetBit(b: bv8, i: nat, j: nat)
    requires i < 8 && j < 8
    ensures (b | (1 << i)) & (1 << j) != 0 <==> i == j || b & (1 << j) != 0
  {
    if i == j {
      assert (1 as bv8) << i != 0;
      assert (b | (1 << i)) & (1 << i) == 1 << i;
    } else {
      assert ((1 as bv8) << i) & (1 << j) == 0;
      assert (b | (1 << i)) & (1 << j) == (b & (1 << j)) | (((1 as bv8) << i) & (1 << j));
    }
  }

  class List {
    const bits: array<bv8>

    constructor (size: nat)
      ensures fresh(bits) && bits.Length == (size + 7) / 8
      ensures forall idx :: 0 <= idx < 8 * bits.Length ==> !BitAt(bits[..], idx)
    {
      bits := new bv8[(size + 7) / 8](_ => 0);
    }

    function Len(): nat { 8 * bits.Length }

    method Revoke(idx: int)
      modifies bits
      ensures forall j :: 0 <= j < Len() ==> (BitAt(bits[..], j) <==> j == idx || BitAt(old(bits[..]), j))
    {
      if 0 <= idx < Len() {
        bits[idx / 8] := bits[idx / 8] | (1 << (idx % 8));
        forall j | 0 <= j < Len() ensures BitAt(bits[..], j) <==> j == idx || BitAt(old(bits[..]), j) {
          if j / 8 == idx / 8 {
            SetBit(old(bits[idx / 8]), idx % 8, j % 8);
          }
        }
      }
    }

    /** known is false where the list does not reach. */
    method Revoked(idx: int) returns (revoked: bool, known: bool)
      ensures known <==> 0 <= idx < Len()
      ensures revoked <==> known && BitAt(bits[..], idx)
    {
      if idx < 0 || idx >= Len() {
        return false, false;
      }
      return bits[idx / 8] & (1 << (idx % 8)) != 0, true;
    }
  }

  // ------------------------------------------------------------------ publishing

  function ListSize(size: nat, count: nat, highest: nat): (r: nat)
    requires size > 0
    ensures r >= size && r >= 2 * count && r > highest
    ensures size % 8 == 0 ==> r % 8 == 0
    ensures r == size || r < 4 * count || r <= 2 * highest
    decreases 2 * count + highest - size
  {
    if size < 2 * count || size <= highest then ListSize(2 * size, count, highest) else size
  }

  function Highest(ps: seq<Position>): (h: nat)
    ensures forall i :: 0 <= i < |ps| ==> ps[i].idx <= h
    ensures h == 0 || exists i :: 0 <= i < |ps| && ps[i].idx == h
  {
    if ps == [] then 0
    else
      var rest, last := Highest(ps[..|ps| - 1]), ps[|ps| - 1].idx;
      if rest > last then rest else last
  }

  function PublishedSize(ps: seq<Position>): nat {
    ListSize(MIN_SIZE, |ps|, Highest(ps))
  }

  method StatusListSize(count: nat, highest: nat) returns (size: nat)
    ensures size == ListSize(MIN_SIZE, count, highest)
  {
    size := MIN_SIZE;
    while size < 2 * count || size <= highest
      invariant size >= MIN_SIZE
      invariant ListSize(size, count, highest) == ListSize(MIN_SIZE, count, highest)
      decreases 2 * count + highest - size
    {
      size := size * 2;
    }
  }

  /** The list reaches every position given out, and a bit is set exactly where the
      position is revoked. */
  method AttestationStatusList(ps: seq<Position>) returns (list: List)
    ensures fresh(list) && fresh(list.bits) && list.Len() == PublishedSize(ps)
    ensures forall idx :: 0 <= idx < list.Len() ==> (BitAt(list.bits[..], idx) <==> Theorems.RevokedAt(ps, idx))
  {
    var highest := 0;
    for i := 0 to |ps|
      invariant highest == Highest(ps[..i])
    {
      assert ps[..i + 1][..i] == ps[..i];
      if ps[i].idx > highest {
        highest := ps[i].idx;
      }
    }
    assert ps[..|ps|] == ps;
    var size := StatusListSize(|ps|, highest);
    list := new List(size);
    for i := 0 to |ps|
      invariant fresh(list) && fresh(list.bits) && list.Len() == PublishedSize(ps)
      invariant forall idx :: 0 <= idx < list.Len() ==>
                  (BitAt(list.bits[..], idx) <==> Theorems.RevokedAt(ps[..i], idx))
    {
      RevokedSnoc(ps[..i], ps[i]);
      assert ps[..i + 1] == ps[..i] + [ps[i]];
      if ps[i].revoked {
        list.Revoke(ps[i].idx);
      }
    }
  }

  lemma RevokedSnoc(ps: seq<Position>, p: Position)
    ensures forall idx ::
              Theorems.RevokedAt(ps + [p], idx) <==> Theorems.RevokedAt(ps, idx) || (p.revoked && p.idx == idx)
  {
    var qs := ps + [p];
    forall idx ensures Theorems.RevokedAt(qs, idx) <==> Theorems.RevokedAt(ps, idx) || (p.revoked && p.idx == idx) {
      if Theorems.RevokedAt(ps, idx) {
        var i :| 0 <= i < |ps| && ps[i].idx == idx && ps[i].revoked;
        assert qs[i] == ps[i];
      }
      assert qs[|ps|] == p;
    }
  }

  // ---------------------------------------------- what a reader of the list learns

  lemma {:induction false} ListSizeGrows(size: nat, count: nat, highest: nat, count': nat, highest': nat)
    requires size > 0 && count <= count' && highest <= highest'
    ensures ListSize(size, count, highest) <= ListSize(size, count', highest')
    decreases 2 * count + highest - size
  {
    if size < 2 * count || size <= highest {
      ListSizeGrows(2 * size, count, highest, count', highest');
    }
  }

  /** Over every run, a list published later reaches every position an earlier one
      reached and repeats every bit that was set. */
  lemma PublishedGrows(s: Theorems.Sys, steps: seq<Theorems.Step>)
    requires Theorems.Inv(s)
    ensures PublishedSize(s.db.positions) <= PublishedSize(Theorems.Run(s, steps).db.positions)
    ensures forall idx :: Theorems.RevokedAt(s.db.positions, idx) ==>
              Theorems.RevokedAt(Theorems.Run(s, steps).db.positions, idx)
  {
    hide Theorems.Inv, Theorems.Run, ListSize, Theorems.RevokedAt;
    Theorems.RunKeeps(s, steps);
    var ps, qs := s.db.positions, Theorems.Run(s, steps).db.positions;
    var h := Highest(ps);
    if h != 0 {
      var i :| 0 <= i < |ps| && ps[i].idx == h;
      assert qs[i].idx == h;
    }
    ListSizeGrows(MIN_SIZE, |ps|, h, |qs|, Highest(qs));
    forall idx | Theorems.RevokedAt(ps, idx) ensures Theorems.RevokedAt(qs, idx) {
      Theorems.ExtendsTaken(ps, qs, idx);
    }
  }

  /** In a state that agrees, every credential ever issued is reached by the list,
      and one whose bit is unset names the present subject of an attestation in force. */
  lemma UnsetBitMeansStanding(s: Theorems.Sys, c: Credential)
    requires Theorems.Inv(s) && Theorems.Agree(s) && c in s.issued
    ensures c.idx < PublishedSize(s.db.positions)
    ensures !Theorems.RevokedAt(s.db.positions, c.idx) ==>
              exists id :: id in s.db.rows && s.db.rows[id].status == Active && s.db.rows[id].subject == c.holder
  {
    var ps := s.db.positions;
    assert Taken(ps, c.idx);
    var i :| 0 <= i < |ps| && ps[i].idx == c.idx;
    if !Theorems.RevokedAt(ps, c.idx) {
      assert Theorems.AgreeAt(s, i);
      assert ps[i].attestation in s.db.rows;
    }
  }
}
