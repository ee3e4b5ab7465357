/** The in-place permutation computes the step mappings of section 3.2 of FIPS 202
    (native/hb_keccak/hb_keccak.c:47-81). */
module KeccakRefinement {
  import opened Fips202
  import opened KeccakTables
  import opened Keccak

  //////////////////////////////////////////////////////////////////////////////
  // Theta
  //////////////////////////////////////////////////////////////////////////////

  lemma ParityRow(s: StateArray, x: nat, rows: nat, z: nat)
    requires x < 5 && rows < 5 && z < 64
    ensures Parity(s, x, rows + 1)[z] == Xor(Parity(s, x, rows)[z], A(s, x, rows, z))
  {
    XorsAt(Parity(s, x, rows), s[x + 5 * rows], z);
  }

  lemma ParityAt(s: StateArray, x: nat, z: nat)
    requires x < 5 && z < 64
    ensures Parity(s, x, 5)[z] == C(s, x, z)
  {
    ParityRow(s, x, 0, z);
    ParityRow(s, x, 1, z);
    ParityRow(s, x, 2, z);
    ParityRow(s, x, 3, z);
    ParityRow(s, x, 4, z);
    assert !Parity(s, x, 0)[z];
  }

  lemma ThetaAt(s: StateArray, i: nat, z: nat)
    requires i < 25 && z < 64
    ensures ThetaWords(s, Parities(s))[i][z] == ThetaBit(s, i % 5, i / 5, z)
  {
    var (x, b) := (i % 5, Parities(s));
    XorsAt(s[i], ColumnAdds(b, x), z);
    AddsAt(s, x, z);
  }

  lemma XorRolAt(before: Lane, after: Lane, z: nat)
    requires z < 64
    ensures Xors(before, Rol(after, 1))[z] == Xor(before[z], after[(z + 63) % 64])
  {
    XorsAt(before, Rol(after, 1), z);
    RolAt(after, 1, z);
  }

  lemma AddsAt(s: StateArray, x: nat, z: nat)
    requires x < 5 && z < 64
    ensures ColumnAdds(Parities(s), x)[z] == D(s, x, z)
  {
    var b := Parities(s);
    XorRolAt(b[(x + 4) % 5], b[(x + 1) % 5], z);
    ParityAt(s, (x + 4) % 5, z);
    ParityAt(s, (x + 1) % 5, (z + 63) % 64);
  }

  lemma ThetaRefines(s: StateArray)
    ensures ThetaWords(s, Parities(s)) == Theta(s)
  {
    forall i | 0 <= i < 25 ensures ThetaWords(s, Parities(s))[i] == Theta(s)[i] {
      forall z | 0 <= z < 64 ensures ThetaWords(s, Parities(s))[i][z] == Theta(s)[i][z] {
        ThetaAt(s, i, z);
      }
    }
  }

  //////////////////////////////////////////////////////////////////////////////
  // Rho and pi
  //////////////////////////////////////////////////////////////////////////////

  lemma {:induction false} VisitIs(x: nat, y: nat, k: nat, t: nat)
    requires t <= k <= 24
    requires forall u | t <= u < k :: Walk(u) != (x, y)
    requires k == 24 || Walk(k) == (x, y)
    ensures VisitFrom(x, y, t) == k
    decreases k - t
  {
    if t < k {
      VisitIs(x, y, k, t + 1);
    }
  }

  lemma SourcesDiffer(u: nat, k: nat)
    requires u < k < 24
    ensures Source(u) != Source(k)
  {
    StepWrites(k - 1);
    if u > 0 {
      StepWrites(u - 1);
    } else {
      StepWrites(23);
    }
  }

  /** The walk never comes back to a lane, and never to (0, 0). */
  lemma WalkVisits(k: nat)
    requires k < 24
    ensures VisitFrom(Walk(k).0, Walk(k).1, 0) == k && Walk(k) != (0, 0)
  {
    var (x, y) := Walk(k);
    WalkIsSource(k);
    forall u | 0 <= u < k ensures Walk(u) != (x, y) {
      WalkIsSource(u);
      SourcesDiffer(u, k);
    }
    VisitIs(x, y, k, 0);
    if k > 0 {
      StepWrites(k - 1);
    }
  }

  lemma OriginStays()
    ensures VisitFrom(0, 0, 0) == 24
  {
    forall u | 0 <= u < 24 ensures Walk(u) != (0, 0) {
      WalkVisits(u);
    }
    VisitIs(0, 0, 24, 0);
  }

  /** The lane that pi moves to lane `i` is the one the walk reads when it writes `i`. */
  lemma SourceLane(i: nat, k: nat)
    requires 0 < i < 25 && k < 24 && PI[k] == i
    ensures Walk(k) == ((i % 5 + 3 * (i / 5)) % 5, i % 5)
  {
    WalkIsSource(k);
    PiIsNext(k);
    NextBack(i, Walk(k).0, Walk(k).1);
  }

  lemma AddFives(x: nat, k: int)
    requires x < 5
    ensures (x + 5 * k) % 5 == x && (x + 5 * k) / 5 == k
  {
  }

  lemma NextBack(i: nat, x: nat, y: nat)
    requires x < 5 && y < 5 && i == Next(x + 5 * y)
    ensures (i % 5 + 3 * (i / 5)) % 5 == x && i % 5 == y
  {
    AddFives(x, y);
    var n := 2 * x + 3 * y;
    var (q, w) := (n / 5, n % 5);
    AddFives(y, w);
    AddFives(x, x + 2 * y - 3 * q);
    assert y + 3 * w == x + 5 * (x + 2 * y - 3 * q);
  }

  lemma RhoPiAt(s: StateArray, i: nat, z: nat)
    requires 0 < i < 25 && z < 64
    ensures TheTables().Moved(s, i)[z] == RhoPiBit(s, i % 5, i / 5, z)
  {
    WrittenAt(i);
    var k := VISIT[i];
    SourceLane(i, k);
    WalkVisits(k);
    WalkIsSource(k);
    RhoIsRotation(k);
    MovedAt(s, s[Source(k)], k, i, z);
  }

  lemma RhoPiBitFrom(s: StateArray, k: nat, i: nat, z: nat)
    requires 0 < i < 25 && z < 64 && k < 24
    requires Walk(k) == ((i % 5 + 3 * (i / 5)) % 5, i % 5) && VisitFrom(Walk(k).0, Walk(k).1, 0) == k
    ensures RhoPiBit(s, i % 5, i / 5, z) == A(s, Walk(k).0, Walk(k).1, (z + 64 - Rotation(k) % 64) % 64)
  {
  }

  lemma MovedAt(s: StateArray, source: Lane, k: nat, i: nat, z: nat)
    requires 0 < i < 25 && z < 64 && k < 24
    requires Walk(k) == ((i % 5 + 3 * (i / 5)) % 5, i % 5) && VisitFrom(Walk(k).0, Walk(k).1, 0) == k
    requires source == s[Walk(k).0 + 5 * Walk(k).1]
    ensures Rol(source, Rotation(k) % 64)[z] == RhoPiBit(s, i % 5, i / 5, z)
  {
    RhoPiBitFrom(s, k, i, z);
    RolAt(source, Rotation(k) % 64, z);
  }

  lemma RhoPiLaneIs(s: StateArray, t: Tables, i: nat)
    requires i < 25 && t == TheTables()
    ensures t.Moved(s, i) == RhoPi(s)[i]
  {
    var lane := t.Moved(s, i);
    forall z | 0 <= z < 64 ensures lane[z] == RhoPiBit(s, i % 5, i / 5, z) {
      if i == 0 {
        OriginStays();
      } else {
        RhoPiAt(s, i, z);
      }
    }
  }

  lemma RhoPiRefines(s: StateArray, t: Tables)
    requires t == TheTables()
    ensures RhoPiWords(s, t) == RhoPi(s)
  {
    forall i | 0 <= i < 25 ensures RhoPiWords(s, t)[i] == RhoPi(s)[i] {
      RhoPiLaneIs(s, t, i);
    }
  }

  //////////////////////////////////////////////////////////////////////////////
  // Chi and iota
  //////////////////////////////////////////////////////////////////////////////

  lemma ChiAt(s: StateArray, i: nat, z: nat)
    requires i < 25 && z < 64
    ensures ChiLane(s, i)[z] == ChiBit(s, i % 5, i / 5, z)
  {
    var (x, y) := (i % 5, i - i % 5);
    var (a, b) := (s[y + (x + 1) % 5], s[y + (x + 2) % 5]);
    assert y == 5 * (i / 5);
    XorsAt(s[i], Ands(Nots(a), b), z);
    AndsNotAt(a, b, z);
  }

  lemma ChiRefines(s: StateArray)
    ensures ChiWords(s) == Chi(s)
  {
    forall i | 0 <= i < 25 ensures ChiWords(s)[i] == Chi(s)[i] {
      forall z | 0 <= z < 64 ensures ChiLane(s, i)[z] == Chi(s)[i][z] {
        ChiAt(s, i, z);
      }
    }
  }

  lemma IotaLane(s: StateArray, round: nat, constant: Lane, i: nat)
    requires i < 25 && constant == RoundConstant(round)
    ensures IotaWords(s, constant)[i] == Iota(s, round)[i]
  {
    var lane := IotaWords(s, constant)[i];
    forall z | 0 <= z < 64 ensures lane[z] == IotaBit(s, round, i % 5, i / 5, z) {
      IotaAt(s, constant, i, z);
      IotaBitAt(s, round, i, z);
    }
  }

  lemma IotaBitAt(s: StateArray, round: nat, i: nat, z: nat)
    requires i < 25 && z < 64
    ensures IotaBit(s, round, i % 5, i / 5, z) == if i == 0 then Xor(s[0][z], RoundConstant(round)[z]) else s[i][z]
  {
    assert i == 5 * (i / 5) + i % 5;
  }

  lemma IotaAt(s: StateArray, constant: Lane, i: nat, z: nat)
    requires i < 25 && z < 64
    ensures IotaWords(s, constant)[i][z] == if i == 0 then Xor(s[0][z], constant[z]) else s[i][z]
  {
    if i == 0 {
      XorsAt(s[0], constant, z);
    }
  }

  lemma IotaRefines(s: StateArray, round: nat, constant: Lane)
    requires constant == RoundConstant(round)
    ensures IotaWords(s, constant) == Iota(s, round)
  {
    forall i | 0 <= i < 25 ensures IotaWords(s, constant)[i] == Iota(s, round)[i] {
      IotaLane(s, round, constant, i);
    }
  }

  //////////////////////////////////////////////////////////////////////////////
  // The permutation
  //////////////////////////////////////////////////////////////////////////////

  lemma RoundRefines(s: StateArray, round: nat)
    requires round < 24
    ensures RoundWords(s, TheTables(), WordBits(RC[round], 64)) == Round(s, round)
  {
    ThetaRefines(s);
    RhoPiRefines(Theta(s), TheTables());
    ChiRefines(RhoPi(Theta(s)));
    ConstantBits(round);
    IotaRefines(Chi(RhoPi(Theta(s))), round, WordBits(RC[round], 64));
  }

  /** Section 3.4 of FIPS 202, in place. */
  method KeccakInPlace(a: array<Lane>)
    requires a.Length == 25
    modifies a
    ensures a[..] == KeccakF(old(a[..]))
  {
    var b := new Lane[5](_ => Zero());
    var tables := TheTables();
    var i := 0;
    while i < 24
      invariant i <= 24
      invariant RoundsFrom(a[..], i) == KeccakF(old(a[..]))
    {
      RoundRefines(a[..], i);
      RoundInPlace(a, b, tables, WordBits(RC[i], 64));
      i := i + 1;
    }
  }
}
