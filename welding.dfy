/**
  Specification of the mesh assembler of TerrainGPU::ConstructMeshGPU: the pass
  that turns the compute stage's triangle soup into an indexed mesh by welding
  corners that share an exact position.

  The readback buffer is a flat sequence of floats made of 12-float triangle
  records: three positions (floats 0..8) followed by one face normal (floats
  9..11). A record whose first float is 0 is an unused slot and is skipped.

  `Weld` folds the welding step over the corners of the non-skipped records,
  exactly as the host loop does; `FirstOccurrences` is an independent reference
  (keep each corner whose position did not occur earlier), and the lemmas
  connect the two.
*/
module Welding {

  /** An exact (x, y, z) float triple, the key of the vertex hash map. */
  datatype Pos = Pos(x: real, y: real, z: real)

  /** One corner of a triangle record: its position and its record's face normal. */
  datatype Corner = Corner(pos: Pos, normal: Pos)

  /** Floats per triangle record in the readback buffer. */
  const RecordStride: nat := 12

  /** Floats per stored vertex in Model::vertices (position, then normal). */
  const VertexStride: nat := 6

  // ---------------------------------------------------------------------------
  // The triangle soup

  /** Corner `j` (0, 1 or 2) of the record that starts at float `i`. */
  function RecordCorner(buf: seq<real>, i: nat, j: nat): Corner
    requires j < 3 && i + RecordStride <= |buf|
  {
    Corner(Pos(buf[i + 3 * j], buf[i + 3 * j + 1], buf[i + 3 * j + 2]),
           Pos(buf[i + 9], buf[i + 10], buf[i + 11]))
  }

  /** The corners a record contributes: none when its first float is 0. */
  function RecordCorners(buf: seq<real>, i: nat): seq<Corner>
    requires i + RecordStride <= |buf|
  {
    if buf[i] == 0.0 then []
    else [RecordCorner(buf, i, 0), RecordCorner(buf, i, 1), RecordCorner(buf, i, 2)]
  }

  /** The corners of the first `k` records of `buf`, in buffer order. */
  function Corners(buf: seq<real>, k: nat): seq<Corner>
    requires RecordStride * k <= |buf|
  {
    if k == 0 then []
    else Corners(buf, k - 1) + RecordCorners(buf, RecordStride * (k - 1))
  }

  // ---------------------------------------------------------------------------
  // The welding pass

  /** The mesh under construction: Model::vertices, Model::indices and the vertex hash map. */
  datatype WeldState = WeldState(vertices: seq<real>, indices: seq<nat>, table: map<Pos, nat>)

  /** The six floats a new vertex appends: its position, then the record's normal. */
  function VertexFloats(c: Corner): seq<real>
  {
    [c.pos.x, c.pos.y, c.pos.z, c.normal.x, c.normal.y, c.normal.z]
  }

  /** Number of stored vertices, as Model::VertexCount computes it. */
  function VertexCount(s: WeldState): nat
  {
    |s.vertices| / VertexStride
  }

  /** One corner: reuse the index of a known position, or append a new vertex numbered VertexCount. */
  function WeldVertex(s: WeldState, c: Corner): (r: WeldState)
    ensures |r.indices| == |s.indices| + 1 && s.indices <= r.indices && s.vertices <= r.vertices
    ensures |r.vertices| == |s.vertices| + (if c.pos in s.table then 0 else VertexStride)
  {
    if c.pos in s.table then
      s.(indices := s.indices + [s.table[c.pos]])
    else
      var j := VertexCount(s);
      WeldState(s.vertices + VertexFloats(c), s.indices + [j], s.table[c.pos := j])
  }

  /** The welding pass over `cs`, starting from an empty model and an empty map. */
  function Weld(cs: seq<Corner>): WeldState
  {
    if cs == [] then WeldState([], [], map[])
    else WeldVertex(Weld(cs[..|cs| - 1]), cs[|cs| - 1])
  }

  /** Position of stored vertex `j`. */
  function PosAt(v: seq<real>, j: nat): Pos
    requires VertexStride * j + VertexStride <= |v|
  {
    Pos(v[6 * j], v[6 * j + 1], v[6 * j + 2])
  }

  /** Normal of stored vertex `j`. */
  function NormalAt(v: seq<real>, j: nat): Pos
    requires VertexStride * j + VertexStride <= |v|
  {
    Pos(v[6 * j + 3], v[6 * j + 4], v[6 * j + 5])
  }

  /**
    The invariant the hash map keeps with the vertex array: whole vertices only,
    every index names a stored vertex, and map[p] == j exactly when vertex j is at p.
  */
  predicate Consistent(s: WeldState)
  {
    && |s.vertices| % VertexStride == 0
    && (forall k | 0 <= k < |s.indices| :: s.indices[k] < VertexCount(s))
    && (forall p | p in s.table ::
          s.table[p] < VertexCount(s) && PosAt(s.vertices, s.table[p]) == p)
    && (forall j | 0 <= j < VertexCount(s) ::
          PosAt(s.vertices, j) in s.table && s.table[PosAt(s.vertices, j)] == j)
  }

  // ---------------------------------------------------------------------------
  // Reference: first occurrences

  /** Some corner of `cs` lies at `p`. */
  predicate Occurs(cs: seq<Corner>, p: Pos)
  {
    exists m :: 0 <= m < |cs| && cs[m].pos == p
  }

  /** The corners of `cs` whose position did not occur earlier, in the order of `cs`. */
  function FirstOccurrences(cs: seq<Corner>): seq<Corner>
  {
    if cs == [] then []
    else
      var init, c := cs[..|cs| - 1], cs[|cs| - 1];
      FirstOccurrences(init) + (if Occurs(init, c.pos) then [] else [c])
  }

  /** A vertex array holding the six floats of each of `us`, in order. */
  function Flatten(us: seq<Corner>): (v: seq<real>)
    ensures |v| == VertexStride * |us|
  {
    if us == [] then [] else Flatten(us[..|us| - 1]) + VertexFloats(us[|us| - 1])
  }

  // ---------------------------------------------------------------------------
  // Lemmas

  /** Flattening stores corner `j` as vertex `j`. */
  lemma {:induction false} FlattenAt(us: seq<Corner>, j: nat)
    requires j < |us|
    ensures VertexStride * j + VertexStride <= |Flatten(us)|
    ensures PosAt(Flatten(us), j) == us[j].pos && NormalAt(Flatten(us), j) == us[j].normal
  {
    var init := us[..|us| - 1];
    if j < |us| - 1 {
      FlattenAt(init, j);
      assert Flatten(us) == Flatten(init) + VertexFloats(us[|us| - 1]);
    }
  }

  /** Keeping first occurrences loses no position and invents none. */
  lemma {:induction false} OccursInFirstOccurrences(cs: seq<Corner>, p: Pos)
    ensures Occurs(FirstOccurrences(cs), p) <==> Occurs(cs, p)
  {
    if cs != [] {
      var init, c := cs[..|cs| - 1], cs[|cs| - 1];
      var u := FirstOccurrences(init);
      OccursInFirstOccurrences(init, p);
      if Occurs(FirstOccurrences(cs), p) {
        var m :| 0 <= m < |FirstOccurrences(cs)| && FirstOccurrences(cs)[m].pos == p;
        if m < |u| {
          assert u[m].pos == p;
          var m' :| 0 <= m' < |init| && init[m'].pos == p;
          assert cs[m'].pos == p;
        } else {
          assert cs[|cs| - 1].pos == p;
        }
      }
      if Occurs(cs, p) {
        var m :| 0 <= m < |cs| && cs[m].pos == p;
        if m < |cs| - 1 {
          assert init[m].pos == p;
          var m' :| 0 <= m' < |u| && u[m'].pos == p;
          assert FirstOccurrences(cs)[m'].pos == p;
        } else if Occurs(init, c.pos) {
          var m' :| 0 <= m' < |u| && u[m'].pos == p;
          assert FirstOccurrences(cs)[m'].pos == p;
        } else {
          assert FirstOccurrences(cs)[|u|].pos == p;
        }
      }
    }
  }

  /** No two first occurrences share a position. */
  lemma {:induction false} FirstOccurrencesDistinct(cs: seq<Corner>)
    ensures forall j1, j2 | 0 <= j1 < j2 < |FirstOccurrences(cs)| ::
      FirstOccurrences(cs)[j1].pos != FirstOccurrences(cs)[j2].pos
  {
    if cs != [] {
      var init, c := cs[..|cs| - 1], cs[|cs| - 1];
      var u := FirstOccurrences(init);
      FirstOccurrencesDistinct(init);
      if !Occurs(init, c.pos) {
        OccursInFirstOccurrences(init, c.pos);
        forall j1, j2 | 0 <= j1 < j2 < |FirstOccurrences(cs)|
          ensures FirstOccurrences(cs)[j1].pos != FirstOccurrences(cs)[j2].pos
        {
          if j2 == |u| {
            assert FirstOccurrences(cs)[j1] == u[j1];
          }
        }
      }
    }
  }

  /**
    Each kept corner is the first corner of `cs` at its position: the vertex it
    becomes carries the normal of the record that introduced the position.
  */
  lemma {:induction false} FirstOccurrencesAreFirst(cs: seq<Corner>, j: nat)
    requires j < |FirstOccurrences(cs)|
    ensures exists m :: 0 <= m < |cs| && cs[m] == FirstOccurrences(cs)[j] && !Occurs(cs[..m], cs[m].pos)
  {
    var init, c := cs[..|cs| - 1], cs[|cs| - 1];
    var u := FirstOccurrences(init);
    if j < |u| {
      FirstOccurrencesAreFirst(init, j);
      var m :| 0 <= m < |init| && init[m] == u[j] && !Occurs(init[..m], init[m].pos);
      assert init[..m] == cs[..m];
      assert cs[m] == FirstOccurrences(cs)[j];
    } else {
      assert cs[..|cs| - 1] == init;
      assert cs[|cs| - 1] == FirstOccurrences(cs)[j];
    }
  }

  /** A corner at a position already welded only appends that position's index. */
  lemma WeldKnownStep(cs: seq<Corner>, init: seq<Corner>)
    requires cs != [] && init == cs[..|cs| - 1]
    requires Weld(init).vertices == Flatten(FirstOccurrences(init))
    requires |Weld(init).indices| == |cs| - 1
    requires forall p :: p in Weld(init).table <==> Occurs(FirstOccurrences(init), p)
    requires forall p | p in Weld(init).table ::
      Weld(init).table[p] < |FirstOccurrences(init)| && FirstOccurrences(init)[Weld(init).table[p]].pos == p
    requires forall m | 0 <= m < |cs| - 1 ::
      Weld(init).indices[m] < |FirstOccurrences(init)| && FirstOccurrences(init)[Weld(init).indices[m]].pos == cs[m].pos
    requires cs[|cs| - 1].pos in Weld(init).table
    ensures Weld(cs).vertices == Flatten(FirstOccurrences(cs))
    ensures |Weld(cs).indices| == |cs|
    ensures forall p :: p in Weld(cs).table <==> Occurs(FirstOccurrences(cs), p)
    ensures forall p | p in Weld(cs).table ::
      Weld(cs).table[p] < |FirstOccurrences(cs)| && FirstOccurrences(cs)[Weld(cs).table[p]].pos == p
    ensures forall m | 0 <= m < |cs| ::
      Weld(cs).indices[m] < |FirstOccurrences(cs)| && FirstOccurrences(cs)[Weld(cs).indices[m]].pos == cs[m].pos
  {
    var c := cs[|cs| - 1];
    var s, u := Weld(init), FirstOccurrences(init);
    assert Occurs(u, c.pos);
    OccursInFirstOccurrences(init, c.pos);
    assert FirstOccurrences(cs) == u;
    var w := Weld(cs);
    assert w == s.(indices := s.indices + [s.table[c.pos]]);
    forall m | 0 <= m < |cs|
      ensures w.indices[m] < |u| && u[w.indices[m]].pos == cs[m].pos
    {
      if m < |init| {
        assert w.indices[m] == s.indices[m];
      } else {
        assert w.indices[m] == s.table[c.pos];
      }
    }
  }

  /** Recording a new position as slot |u| keeps the map's keys equal to the positions of the reference. */
  lemma NewPositionKeys(table: map<Pos, nat>, u: seq<Corner>, c: Corner)
    requires forall p :: p in table <==> Occurs(u, p)
    ensures forall p :: p in table[c.pos := |u|] <==> Occurs(u + [c], p)
  {
    var u' := u + [c];
    forall p
      ensures p in table[c.pos := |u|] <==> Occurs(u', p)
    {
      if Occurs(u', p) {
        var m :| 0 <= m < |u'| && u'[m].pos == p;
        if m < |u| {
          assert u[m].pos == p;
        }
      }
      if p in table {
        var m :| 0 <= m < |u| && u[m].pos == p;
        assert u'[m].pos == p;
      }
      assert u'[|u|].pos == c.pos;
    }
  }

  /** Recording a new position as slot |u| keeps every key sent to its slot of the reference. */
  lemma NewPositionSlots(table: map<Pos, nat>, u: seq<Corner>, c: Corner, t: map<Pos, nat>, u': seq<Corner>)
    requires t == table[c.pos := |u|] && u' == u + [c]
    requires forall p | p in table :: table[p] < |u| && u[table[p]].pos == p
    ensures forall p | p in t :: t[p] < |u'| && u'[t[p]].pos == p
  {
    forall p | p in t
      ensures t[p] < |u'| && u'[t[p]].pos == p
    {
      if p != c.pos {
        assert t[p] == table[p] && u'[table[p]] == u[table[p]];
      }
    }
  }

  /** Appending slot |u| for the last corner keeps every index resolving to its corner's position. */
  lemma NewPositionIndices(indices: seq<nat>, cs: seq<Corner>, u: seq<Corner>, ix: seq<nat>, u': seq<Corner>)
    requires |indices| + 1 == |cs| && ix == indices + [|u|] && u' == u + [cs[|cs| - 1]]
    requires forall m | 0 <= m < |cs| - 1 :: indices[m] < |u| && u[indices[m]].pos == cs[m].pos
    ensures forall m | 0 <= m < |cs| :: ix[m] < |u'| && u'[ix[m]].pos == cs[m].pos
  {
    forall m | 0 <= m < |cs|
      ensures ix[m] < |u'| && u'[ix[m]].pos == cs[m].pos
    {
      if m < |indices| {
        var j := indices[m];
        assert ix[m] == j && u'[j] == u[j];
      }
    }
  }

  /** A corner at a new position appends its vertex, as the reference keeps it. */
  lemma WeldNewStep(cs: seq<Corner>, init: seq<Corner>)
    requires cs != [] && init == cs[..|cs| - 1]
    requires Weld(init).vertices == Flatten(FirstOccurrences(init))
    requires |Weld(init).indices| == |cs| - 1
    requires forall p :: p in Weld(init).table <==> Occurs(FirstOccurrences(init), p)
    requires forall p | p in Weld(init).table ::
      Weld(init).table[p] < |FirstOccurrences(init)| && FirstOccurrences(init)[Weld(init).table[p]].pos == p
    requires forall m | 0 <= m < |cs| - 1 ::
      Weld(init).indices[m] < |FirstOccurrences(init)| && FirstOccurrences(init)[Weld(init).indices[m]].pos == cs[m].pos
    requires cs[|cs| - 1].pos !in Weld(init).table
    ensures Weld(cs).vertices == Flatten(FirstOccurrences(cs))
    ensures |Weld(cs).indices| == |cs|
    ensures forall p :: p in Weld(cs).table <==> Occurs(FirstOccurrences(cs), p)
    ensures forall p | p in Weld(cs).table ::
      Weld(cs).table[p] < |FirstOccurrences(cs)| && FirstOccurrences(cs)[Weld(cs).table[p]].pos == p
    ensures forall m | 0 <= m < |cs| ::
      Weld(cs).indices[m] < |FirstOccurrences(cs)| && FirstOccurrences(cs)[Weld(cs).indices[m]].pos == cs[m].pos
  {
    var c := cs[|cs| - 1];
    var s, u := Weld(init), FirstOccurrences(init);
    assert !Occurs(u, c.pos);
    OccursInFirstOccurrences(init, c.pos);
    assert VertexCount(s) == |u|;
    var u' := u + [c];
    assert FirstOccurrences(cs) == u';
    assert u'[..|u'| - 1] == u;
    assert Weld(cs) == WeldState(s.vertices + VertexFloats(c), s.indices + [|u|], s.table[c.pos := |u|]);
    NewPositionKeys(s.table, u, c);
    NewPositionSlots(s.table, u, c, s.table[c.pos := |u|], u');
    NewPositionIndices(s.indices, cs, u, s.indices + [|u|], u');
  }


  /**
    The welding pass builds exactly the reference mesh: the vertex array holds the
    first occurrences, the map sends each seen position to its first occurrence,
    and the k-th index names the vertex at the k-th corner's position.
  */
  lemma {:induction false} WeldFollowsFirstOccurrences(cs: seq<Corner>)
    ensures Weld(cs).vertices == Flatten(FirstOccurrences(cs))
    ensures |Weld(cs).indices| == |cs|
    ensures forall p :: p in Weld(cs).table <==> Occurs(FirstOccurrences(cs), p)
    ensures forall p | p in Weld(cs).table ::
      Weld(cs).table[p] < |FirstOccurrences(cs)| && FirstOccurrences(cs)[Weld(cs).table[p]].pos == p
    ensures forall m | 0 <= m < |cs| ::
      Weld(cs).indices[m] < |FirstOccurrences(cs)| && FirstOccurrences(cs)[Weld(cs).indices[m]].pos == cs[m].pos
  {
    if cs != [] {
      var init := cs[..|cs| - 1];
      WeldFollowsFirstOccurrences(init);
      if cs[|cs| - 1].pos in Weld(init).table {
        WeldKnownStep(cs, init);
      } else {
        WeldNewStep(cs, init);
      }
    }
  }

  /**
    After any welding pass the map agrees with the vertex array (Consistent), there
    is one index per corner, and no two vertex slots hold the same position.
  */
  lemma WeldConsistent(cs: seq<Corner>)
    ensures Consistent(Weld(cs))
    ensures |Weld(cs).indices| == |cs|
    ensures forall j1, j2 | 0 <= j1 < j2 < VertexCount(Weld(cs)) ::
      PosAt(Weld(cs).vertices, j1) != PosAt(Weld(cs).vertices, j2)
  {
    var s, u := Weld(cs), FirstOccurrences(cs);
    WeldFollowsFirstOccurrences(cs);
    FirstOccurrencesDistinct(cs);
    assert VertexCount(s) == |u|;
    forall j | 0 <= j < |u|
      ensures PosAt(s.vertices, j) == u[j].pos
    {
      FlattenAt(u, j);
    }
    forall j | 0 <= j < |u|
      ensures PosAt(s.vertices, j) in s.table && s.table[PosAt(s.vertices, j)] == j
    {
      assert Occurs(u, u[j].pos);
      var i := s.table[u[j].pos];
      assert u[i].pos == u[j].pos;
    }
  }

  /**
    The indexed mesh reproduces the soup: the vertex named by the k-th index sits
    at the k-th corner's position, and two corners share an index exactly when
    they share a position.
  */
  lemma WeldResolvesCorners(cs: seq<Corner>)
    ensures |Weld(cs).indices| == |cs|
    ensures forall m | 0 <= m < |cs| ::
      Weld(cs).indices[m] < VertexCount(Weld(cs)) && PosAt(Weld(cs).vertices, Weld(cs).indices[m]) == cs[m].pos
    ensures forall m1, m2 | 0 <= m1 < |cs| && 0 <= m2 < |cs| ::
      Weld(cs).indices[m1] == Weld(cs).indices[m2] <==> cs[m1].pos == cs[m2].pos
  {
    var s, u := Weld(cs), FirstOccurrences(cs);
    WeldFollowsFirstOccurrences(cs);
    FirstOccurrencesDistinct(cs);
    forall m | 0 <= m < |cs|
      ensures s.indices[m] < VertexCount(s) && PosAt(s.vertices, s.indices[m]) == cs[m].pos
    {
      FlattenAt(u, s.indices[m]);
    }
  }

  /**
    Vertex `j` of the welded mesh is the first corner of the soup at its
    position: its normal is the normal of the record that introduced it.
  */
  lemma WeldVertexIsFirstOccurrence(cs: seq<Corner>, j: nat)
    requires j < VertexCount(Weld(cs))
    ensures exists m :: (0 <= m < |cs| && !Occurs(cs[..m], cs[m].pos) &&
      PosAt(Weld(cs).vertices, j) == cs[m].pos && NormalAt(Weld(cs).vertices, j) == cs[m].normal)
  {
    var u := FirstOccurrences(cs);
    WeldFollowsFirstOccurrences(cs);
    FlattenAt(u, j);
    FirstOccurrencesAreFirst(cs, j);
  }

  /** Welding one more corner. */
  lemma WeldAppend(cs: seq<Corner>, c: Corner)
    ensures Weld(cs + [c]) == WeldVertex(Weld(cs), c)
  {
    assert (cs + [c])[..|cs|] == cs;
  }

  /**
    Later corners never change what is stored: the vertices and indices of a
    prefix are prefixes of those of the whole, and known positions keep their index.
  */
  lemma {:induction false} WeldExtends(cs: seq<Corner>, ds: seq<Corner>)
    ensures Weld(cs).vertices <= Weld(cs + ds).vertices
    ensures Weld(cs).indices <= Weld(cs + ds).indices
    ensures forall p | p in Weld(cs).table :: p in Weld(cs + ds).table && Weld(cs + ds).table[p] == Weld(cs).table[p]
  {
    if ds != [] {
      var init, d := ds[..|ds| - 1], ds[|ds| - 1];
      WeldExtends(cs, init);
      assert cs + ds == (cs + init) + [d];
      WeldAppend(cs + init, d);
    } else {
      assert cs + ds == cs;
    }
  }

  /**
    The effect of one record: a record whose first float is 0 changes nothing;
    any other record adds exactly three indices and at most three vertices,
    leaving what was stored in place.
  */
  lemma RecordEffect(buf: seq<real>, k: nat)
    requires RecordStride * (k + 1) <= |buf|
    ensures var before, after := Weld(Corners(buf, k)), Weld(Corners(buf, k + 1));
      if buf[RecordStride * k] == 0.0 then after == before
      else
        && |after.indices| == |before.indices| + 3
        && VertexCount(before) <= VertexCount(after) <= VertexCount(before) + 3
        && before.vertices <= after.vertices
        && before.indices <= after.indices
  {
    RecordStep(buf, k);
  }


  /** The welding state after the record at `k` is the three-step update of the host loop. */
  lemma RecordStep(buf: seq<real>, k: nat)
    requires RecordStride * (k + 1) <= |buf|
    ensures var i := RecordStride * k;
      Weld(Corners(buf, k + 1)) ==
        if buf[i] == 0.0 then Weld(Corners(buf, k))
        else WeldVertex(WeldVertex(WeldVertex(Weld(Corners(buf, k)),
               RecordCorner(buf, i, 0)), RecordCorner(buf, i, 1)), RecordCorner(buf, i, 2))
  {
    var cs := Corners(buf, k);
    var i := RecordStride * k;
    if buf[i] != 0.0 {
      var c0, c1, c2 := RecordCorner(buf, i, 0), RecordCorner(buf, i, 1), RecordCorner(buf, i, 2);
      assert Corners(buf, k + 1) == ((cs + [c0]) + [c1]) + [c2];
      WeldAppend(cs, c0);
      WeldAppend(cs + [c0], c1);
      WeldAppend((cs + [c0]) + [c1], c2);
    } else {
      assert Corners(buf, k + 1) == cs;
    }
  }

  /**
    Every corner of the soup comes from a record of the buffer that is not
    skipped: it is one of that record's three positions with the record's normal.
  */
  lemma {:induction false} CornersFromRecords(buf: seq<real>, k: nat, m: nat)
    requires RecordStride * k <= |buf| && m < |Corners(buf, k)|
    ensures exists r, j :: (0 <= r < k && 0 <= j < 3 && buf[RecordStride * r] != 0.0 &&
      Corners(buf, k)[m] == RecordCorner(buf, RecordStride * r, j))
  {
    if k > 0 {
      var prev := Corners(buf, k - 1);
      var i := RecordStride * (k - 1);
      if m < |prev| {
        CornersFromRecords(buf, k - 1, m);
        var r, j :| 0 <= r < k - 1 && 0 <= j < 3 && buf[RecordStride * r] != 0.0 &&
          prev[m] == RecordCorner(buf, RecordStride * r, j);
        assert Corners(buf, k)[m] == prev[m];
      } else {
        var j := m - |prev|;
        assert buf[i] != 0.0 && Corners(buf, k)[m] == RecordCorner(buf, i, j);
      }
    }
  }

  /** A buffer whose records all start with 0 (nothing was emitted) welds to an empty mesh. */
  lemma {:induction false} AllSkippedGivesEmptyMesh(buf: seq<real>, k: nat)
    requires RecordStride * k <= |buf|
    requires forall r | 0 <= r < k :: buf[RecordStride * r] == 0.0
    ensures Weld(Corners(buf, k)) == WeldState([], [], map[])
  {
    if k > 0 {
      AllSkippedGivesEmptyMesh(buf, k - 1);
      assert buf[RecordStride * (k - 1)] == 0.0;
      assert Corners(buf, k) == Corners(buf, k - 1);
    }
  }

  /** At most three corners per record. */
  lemma {:induction false} CornersBound(buf: seq<real>, k: nat)
    requires RecordStride * k <= |buf|
    ensures |Corners(buf, k)| <= 3 * k
  {
    if k > 0 {
      CornersBound(buf, k - 1);
    }
  }

  /** Each stored vertex comes from a distinct corner, so there are no more vertices than corners. */
  lemma {:induction false} FirstOccurrencesBound(cs: seq<Corner>)
    ensures |FirstOccurrences(cs)| <= |cs|
  {
    if cs != [] {
      FirstOccurrencesBound(cs[..|cs| - 1]);
    }
  }

  /**
    Welding the first `k` records stores at most 3k vertices, so every index the
    pass hands out is below 3k.
  */
  lemma VertexCountBound(buf: seq<real>, k: nat)
    requires RecordStride * k <= |buf|
    ensures VertexCount(Weld(Corners(buf, k))) <= 3 * k
    ensures forall m | 0 <= m < |Weld(Corners(buf, k)).indices| :: Weld(Corners(buf, k)).indices[m] < 3 * k
  {
    var cs := Corners(buf, k);
    WeldFollowsFirstOccurrences(cs);
    WeldConsistent(cs);
    FirstOccurrencesBound(cs);
    CornersBound(buf, k);
  }
}
