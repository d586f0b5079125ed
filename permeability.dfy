/** The compartment decision engine: whether a new connection may form between two
  * memories, whether data may flow from one memory to another, and the filter applied to
  * query results on behalf of a requesting memory. All three only read the graph. */
module Permeability {
  import opened Wrappers
  import opened Enums
  import opened Models

  /** The part of the graph the decisions read: the memories (each with its own
    * permeability), the compartments, and the IN_COMPARTMENT edges as a map from a
    * memory to the ids of its compartments. */
  datatype Topology = Topology(
    memories: map<Id, Memory>,
    compartments: map<Id, Compartment>,
    membership: map<Id, set<Id>>)

  /** `get_memory_permeability`: None when there is no such memory. */
  function MemoryPermeability(t: Topology, m: Id): (r: Option<Permeability>)
    ensures r.Some? <==> m in t.memories
  {
    if m in t.memories then Some(t.memories[m].permeability) else None
  }

  /** The ids `get_memory_compartments` returns: compartments the memory is linked to. */
  function CompartmentsOf(t: Topology, m: Id): (r: set<Id>)
    ensures r <= t.compartments.Keys
  {
    if m in t.membership then set c | c in t.membership[m] && c in t.compartments else {}
  }

  // ---------------------------------------------------------------- connections

  /** `can_form_connection`: two memories outside every compartment, or in exactly the
    * same compartments, may always connect; otherwise every compartment of either
    * memory must allow external connections. */
  function CanFormConnection(t: Topology, a: Id, b: Id): (r: bool)
    ensures CompartmentsOf(t, a) == CompartmentsOf(t, b) ==> r
    ensures !r ==> BlocksExternal(t, CompartmentsOf(t, a)) || BlocksExternal(t, CompartmentsOf(t, b))
  {
    var ids1 := CompartmentsOf(t, a);
    var ids2 := CompartmentsOf(t, b);
    if ids1 == {} && ids2 == {} then true
    else if ids1 == ids2 && ids1 != {} then true
    else !BlocksExternal(t, ids1) && !BlocksExternal(t, ids2)
  }

  /** Some compartment among `ids` disallows external connections. */
  predicate BlocksExternal(t: Topology, ids: set<Id>)
    requires ids <= t.compartments.Keys
  {
    exists c :: c in ids && !t.compartments[c].allowExternal
  }

  /** The decision does not depend on the order of the two memories. */
  lemma CanFormConnectionSymmetric(t: Topology, a: Id, b: Id)
    ensures CanFormConnection(t, a, b) == CanFormConnection(t, b, a)
  {
  }

  /** The whole decision as one statement: co-located memories (including two memories
    * in no compartment) connect; any other pair connects iff no compartment of either
    * memory blocks external connections. A shared compartment does not help while
    * another one blocks. */
  lemma {:induction false} CanFormConnectionIff(t: Topology, a: Id, b: Id)
    ensures CompartmentsOf(t, a) == CompartmentsOf(t, b) ==> CanFormConnection(t, a, b)
    ensures CompartmentsOf(t, a) != CompartmentsOf(t, b) ==>
              (CanFormConnection(t, a, b) <==>
                 forall c :: c in CompartmentsOf(t, a) + CompartmentsOf(t, b) ==> t.compartments[c].allowExternal)
  {
    var ids1, ids2 := CompartmentsOf(t, a), CompartmentsOf(t, b);
    if ids1 != ids2 {
      if BlocksExternal(t, ids1) || BlocksExternal(t, ids2) {
        var c :| (c in ids1 || c in ids2) && !t.compartments[c].allowExternal;
        assert c in ids1 + ids2;
      }
    }
  }

  // ---------------------------------------------------------------- data flow

  /** Layers 1 and 2: the source memory (when known) and every compartment it is in let
    * data out. */
  predicate Releases(t: Topology, m: Id) {
    && (MemoryPermeability(t, m).Some? ==> MemoryPermeability(t, m).value.AllowsOutward())
    && forall c :: c in CompartmentsOf(t, m) ==> t.compartments[c].permeability.AllowsOutward()
  }

  /** Layers 3 and 4: the destination memory (when known) and every compartment it is in
    * let data in. */
  predicate Admits(t: Topology, m: Id) {
    && (MemoryPermeability(t, m).Some? ==> MemoryPermeability(t, m).value.AllowsInward())
    && forall c :: c in CompartmentsOf(t, m) ==> t.compartments[c].permeability.AllowsInward()
  }

  /** `can_data_flow(from, to, connection_permeability)`, checking the layers in the
    * order the code does and stopping at the first that blocks. A connection
    * permeability that is given (a non-empty string) must parse, and is always asked
    * whether it allows INWARD flow, whatever the direction. */
  function CanDataFlow(t: Topology, from: Id, to: Id, connection: Option<string>): (r: Result<bool>)
    ensures r.Err? ==> r.error == ValueError && connection.Some? && ParsePermeability(connection.value).None?
    ensures r == Ok(true) ==> Releases(t, from) && Admits(t, to)
  {
    var fromPerm := MemoryPermeability(t, from);
    var toPerm := MemoryPermeability(t, to);
    if fromPerm.Some? && !fromPerm.value.AllowsOutward() then Ok(false)
    else if toPerm.Some? && !toPerm.value.AllowsInward() then Ok(false)
    else if exists c :: c in CompartmentsOf(t, from) && !t.compartments[c].permeability.AllowsOutward() then Ok(false)
    else if exists c :: c in CompartmentsOf(t, to) && !t.compartments[c].permeability.AllowsInward() then Ok(false)
    else if connection.Some? && connection.value != "" then
      match ParsePermeability(connection.value)
      case None => Err(ValueError)
      case Some(p) => Ok(p.AllowsInward())
    else Ok(true)
  }

  /** Data flows iff every layer allows it: the source lets data out, the destination
    * lets it in, and a given connection permeability allows inward flow. An unknown
    * connection string raises only when the first four layers pass. */
  lemma {:induction false} CanDataFlowIsConjunction(t: Topology, from: Id, to: Id, connection: Option<string>)
    ensures !Releases(t, from) || !Admits(t, to) ==> CanDataFlow(t, from, to, connection) == Ok(false)
    ensures Releases(t, from) && Admits(t, to) && (connection.None? || connection.value == "")
            ==> CanDataFlow(t, from, to, connection) == Ok(true)
    ensures Releases(t, from) && Admits(t, to) && connection.Some? && connection.value != ""
            ==> CanDataFlow(t, from, to, connection) ==
                (if ParsePermeability(connection.value).Some?
                 then Ok(ParsePermeability(connection.value).value.AllowsInward())
                 else Err(ValueError))
  {
    if !Releases(t, from) {
      if MemoryPermeability(t, from).Some? && !MemoryPermeability(t, from).value.AllowsOutward() {
      } else {
        var c :| c in CompartmentsOf(t, from) && !t.compartments[c].permeability.AllowsOutward();
      }
    } else if !Admits(t, to) {
      if MemoryPermeability(t, to).Some? && !MemoryPermeability(t, to).value.AllowsInward() {
      } else {
        var c :| c in CompartmentsOf(t, to) && !t.compartments[c].permeability.AllowsInward();
      }
    }
  }

  /** Giving a connection permeability can turn a true answer into false, never a false
    * one into true; "closed" always blocks. */
  lemma ConnectionOnlyNarrows(t: Topology, from: Id, to: Id, connection: Option<string>)
    ensures CanDataFlow(t, from, to, connection) == Ok(true) ==> CanDataFlow(t, from, to, None) == Ok(true)
    ensures CanDataFlow(t, from, to, None) == Ok(false) ==> CanDataFlow(t, from, to, connection) == Ok(false)
    ensures CanDataFlow(t, from, to, Some("closed")) == Ok(false)
  {
    CanDataFlowIsConjunction(t, from, to, connection);
    CanDataFlowIsConjunction(t, from, to, None);
    CanDataFlowIsConjunction(t, from, to, Some("closed"));
  }

  /** A CLOSED memory neither sends nor receives. */
  lemma ClosedMemoryIsolated(t: Topology, m: Id, other: Id, connection: Option<string>)
    requires m in t.memories && t.memories[m].permeability == Closed
    ensures CanDataFlow(t, m, other, connection) == Ok(false)
    ensures CanDataFlow(t, other, m, connection) == Ok(false)
  {
    CanDataFlowIsConjunction(t, m, other, connection);
    CanDataFlowIsConjunction(t, other, m, connection);
  }

  /** A memory in both an OPEN and a CLOSED compartment cannot send: every compartment
    * has to allow the direction. */
  lemma MixedCompartmentsBlockSending(t: Topology, m: Id, open: Id, closed: Id, other: Id, connection: Option<string>)
    requires m in t.membership && open in t.membership[m] && closed in t.membership[m]
    requires open in t.compartments && t.compartments[open].permeability == Open
    requires closed in t.compartments && t.compartments[closed].permeability == Closed
    ensures CanDataFlow(t, m, other, connection) == Ok(false)
  {
    assert closed in CompartmentsOf(t, m);
    CanDataFlowIsConjunction(t, m, other, connection);
  }

  /** A memory that is OSMOTIC_INWARD, in compartments that let data in, can receive
    * from an open source but cannot send. */
  lemma OsmoticInwardReceivesOnly(t: Topology, m: Id, source: Id)
    requires m in t.memories && t.memories[m].permeability == OsmoticInward
    requires forall c :: c in CompartmentsOf(t, m) ==> t.compartments[c].permeability.AllowsInward()
    requires source != m && Releases(t, source)
    ensures CanDataFlow(t, source, m, None) == Ok(true)
    ensures CanDataFlow(t, m, source, None) == Ok(false)
  {
    CanDataFlowIsConjunction(t, source, m, None);
    CanDataFlowIsConjunction(t, m, source, None);
  }

  // ---------------------------------------------------------------- result filtering

  /** A result row of a connection query: the related memory and the connection data. */
  datatype Row = Row(id: Id, summary: string, strength: real, permeability: string)

  /** `_filter_by_permeability(requester, results)`: an empty list comes back as it is;
    * nothing passes when the requester (its own permeability, when known, or any of
    * its compartments) refuses inward flow; otherwise the rows whose memory lets data
    * out are kept, in their order. */
  function FilterByPermeability(t: Topology, requester: Id, rows: seq<Row>): (r: seq<Row>)
    ensures |r| <= |rows|
    ensures !Admits(t, requester) ==> r == []
  {
    if rows == [] then rows
    else if !Admits(t, requester) then []
    else KeepReleasing(t, rows)
  }

  function KeepReleasing(t: Topology, rows: seq<Row>): (r: seq<Row>)
    ensures |r| <= |rows|
  {
    if rows == [] then []
    else (if Releases(t, rows[0].id) then [rows[0]] else []) + KeepReleasing(t, rows[1..])
  }

  /** `small` is `big` with some entries removed and the rest in their original order. */
  predicate Subsequence<T(==)>(small: seq<T>, big: seq<T>)
    decreases |big|
  {
    if big == [] then small == []
    else (small != [] && small[0] == big[0] && Subsequence(small[1..], big[1..]))
         || Subsequence(small, big[1..])
  }

  lemma {:induction false} KeepReleasingSubsequence(t: Topology, rows: seq<Row>)
    ensures Subsequence(KeepReleasing(t, rows), rows)
    ensures forall r :: r in KeepReleasing(t, rows) <==> r in rows && Releases(t, r.id)
  {
    if rows != [] {
      KeepReleasingSubsequence(t, rows[1..]);
      assert rows == [rows[0]] + rows[1..];
      var rest := KeepReleasing(t, rows[1..]);
      if Releases(t, rows[0].id) {
        assert KeepReleasing(t, rows) == [rows[0]] + rest;
        assert ([rows[0]] + rest)[1..] == rest;
      } else {
        assert KeepReleasing(t, rows) == rest;
      }
    }
  }

  /** Every prefix of a sub-list is a sub-list too. */
  lemma {:induction false} PrefixSubsequence<T>(small: seq<T>, big: seq<T>, n: nat)
    requires Subsequence(small, big) && n <= |small|
    ensures Subsequence(small[..n], big)
    decreases |big|
  {
    if big != [] {
      if small != [] && small[0] == big[0] && Subsequence(small[1..], big[1..]) {
        if n == 0 {
          EmptySubsequence(big);
        } else {
          PrefixSubsequence(small[1..], big[1..], n - 1);
          assert small[..n][1..] == small[1..][..n - 1];
        }
      } else {
        PrefixSubsequence(small, big[1..], n);
      }
    }
  }

  lemma {:induction false} EmptySubsequence<T>(big: seq<T>)
    ensures Subsequence([], big)
    decreases |big|
  {
    if big != [] {
      EmptySubsequence(big[1..]);
    }
  }

  /** The filter keeps an order-preserving part of its input; a row survives iff the
    * requester admits data and the row's memory releases it, which is exactly when
    * `CanDataFlow` from that memory to the requester, without a connection, is true. */
  lemma {:induction false} FilterSpec(t: Topology, requester: Id, rows: seq<Row>)
    ensures Subsequence(FilterByPermeability(t, requester, rows), rows)
    ensures forall r :: r in FilterByPermeability(t, requester, rows) <==>
              r in rows && Admits(t, requester) && Releases(t, r.id)
    ensures forall r :: r in rows ==>
              (r in FilterByPermeability(t, requester, rows) <==> CanDataFlow(t, r.id, requester, None) == Ok(true))
    ensures !Admits(t, requester) ==> FilterByPermeability(t, requester, rows) == []
  {
    KeepReleasingSubsequence(t, rows);
    EmptySubsequence(rows);
    forall r | r in rows
      ensures CanDataFlow(t, r.id, requester, None) == Ok(true) <==> Admits(t, requester) && Releases(t, r.id)
    {
      CanDataFlowIsConjunction(t, r.id, requester, None);
    }
  }
}
