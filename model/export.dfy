/** `collect_graph_data` of utils/data_export.py: the rows of the three statistics
    tables, assembled from the per-iteration results. Each iteration's result is a
    dictionary from field name to number; writing the CSV files is left out, so the
    method returns the three tables it would write. */
module Export {
  import opened Common

  datatype NodeTag = BS | HAPS | LEO

  /** A row of the success-rate table: `[total_requests, success_rate]`. */
  datatype SuccessRow = SuccessRow(totalRequests: real, successRate: real)

  /** A row of the energy table: `[total_requests, energy, node type]`. */
  datatype EnergyRow = EnergyRow(totalRequests: real, energy: real, tag: NodeTag)

  /** A row of the completed-requests table: `[total_requests, total energy]`. */
  datatype CompletedRow = CompletedRow(totalRequests: real, totalEnergy: real)

  datatype Tables = Tables(success: seq<SuccessRow>, energy: seq<EnergyRow>, completed: seq<CompletedRow>)

  /** The fields read from each iteration. */
  predicate HasFields(it: map<string, real>) {
    && "total_requests" in it && "success_rate" in it
    && "total_energy_bs" in it && "total_energy_haps" in it && "total_energy_leo" in it
  }

  /** The three energy rows of one iteration, tagged BS, HAPS and LEO in that order. */
  function EnergyRowsOf(it: map<string, real>): (r: seq<EnergyRow>)
    requires HasFields(it)
    ensures |r| == 3 && r[0].tag == BS && r[1].tag == HAPS && r[2].tag == LEO
  {
    var n := it["total_requests"];
    [EnergyRow(n, it["total_energy_bs"], BS), EnergyRow(n, it["total_energy_haps"], HAPS), EnergyRow(n, it["total_energy_leo"], LEO)]
  }

  /** The completed row of one iteration: its total request count and the BS, HAPS and
      LEO energy added up. */
  function CompletedRowOf(it: map<string, real>): CompletedRow
    requires HasFields(it)
  {
    CompletedRow(it["total_requests"], it["total_energy_bs"] + it["total_energy_haps"] + it["total_energy_leo"])
  }

  predicate AllHaveFields(iterations: seq<map<string, real>>) {
    forall i :: 0 <= i < |iterations| ==> HasFields(iterations[i])
  }

  /** The success table: one row per iteration, in order. */
  function SuccessTable(iterations: seq<map<string, real>>): (r: seq<SuccessRow>)
    requires AllHaveFields(iterations)
    ensures |r| == |iterations|
    ensures forall i :: 0 <= i < |iterations| ==> r[i] == SuccessRow(iterations[i]["total_requests"], iterations[i]["success_rate"])
  {
    seq(|iterations|, i requires 0 <= i < |iterations| => SuccessRow(iterations[i]["total_requests"], iterations[i]["success_rate"]))
  }

  /** The energy table: each iteration's three rows, iteration after iteration. */
  function EnergyTable(iterations: seq<map<string, real>>): (r: seq<EnergyRow>)
    requires AllHaveFields(iterations)
    ensures |r| == 3 * |iterations|
  {
    if |iterations| == 0 then []
    else EnergyTable(iterations[..|iterations| - 1]) + EnergyRowsOf(iterations[|iterations| - 1])
  }

  /** The completed table: one row per iteration, in order. */
  function CompletedTable(iterations: seq<map<string, real>>): (r: seq<CompletedRow>)
    requires AllHaveFields(iterations)
    ensures |r| == |iterations| && forall i :: 0 <= i < |iterations| ==> r[i] == CompletedRowOf(iterations[i])
  {
    seq(|iterations|, i requires 0 <= i < |iterations| => CompletedRowOf(iterations[i]))
  }

  /** Rows 3i, 3i + 1 and 3i + 2 of the energy table are iteration i's BS, HAPS and LEO
      rows. */
  lemma {:induction false} EnergyTableRows(iterations: seq<map<string, real>>, i: nat)
    requires AllHaveFields(iterations) && i < |iterations|
    ensures EnergyTable(iterations)[3 * i..3 * i + 3] == EnergyRowsOf(iterations[i])
  {
    var n := |iterations|;
    var front := iterations[..n - 1];
    if i < n - 1 {
      EnergyTableRows(front, i);
      assert front[i] == iterations[i];
      assert EnergyTable(iterations)[3 * i..3 * i + 3] == EnergyTable(front)[3 * i..3 * i + 3];
    }
  }

  function Energy(rows: seq<EnergyRow>): real {
    if |rows| == 0 then 0.0 else Energy(rows[..|rows| - 1]) + rows[|rows| - 1].energy
  }

  function TotalEnergy(rows: seq<CompletedRow>): real {
    if |rows| == 0 then 0.0 else TotalEnergy(rows[..|rows| - 1]) + rows[|rows| - 1].totalEnergy
  }

  lemma {:induction false} EnergyAppend(a: seq<EnergyRow>, b: seq<EnergyRow>)
    ensures Energy(a + b) == Energy(a) + Energy(b)
  {
    if |b| > 0 {
      EnergyAppend(a, b[..|b| - 1]);
      assert (a + b)[..|a + b| - 1] == a + b[..|b| - 1];
    } else {
      assert a + b == a;
    }
  }

  /** `collect_graph_data(all_iterations_data)`, without the file output: one success
      row, three energy rows and one completed row per iteration, in input order. An
      iteration missing a field raises KeyError before anything is written. */
  method CollectGraphData(iterations: seq<map<string, real>>) returns (r: Result<Tables>)
    ensures r.Err? <==> !AllHaveFields(iterations)
    ensures r.Err? ==> r.error == KeyError
    ensures r.Ok? ==> AllHaveFields(iterations) && r.value == Tables(SuccessTable(iterations), EnergyTable(iterations), CompletedTable(iterations))
  {
    var success: seq<SuccessRow> := [];
    var energy: seq<EnergyRow> := [];
    var completed: seq<CompletedRow> := [];
    for k := 0 to |iterations|
      invariant AllHaveFields(iterations[..k])
      invariant success == SuccessTable(iterations[..k])
      invariant energy == EnergyTable(iterations[..k])
      invariant completed == CompletedTable(iterations[..k])
    {
      var it := iterations[k];
      if !HasFields(it) {
        return Err(KeyError);
      }
      var totalRequests := it["total_requests"];
      var successRate := it["success_rate"];
      var bs, haps, leo := it["total_energy_bs"], it["total_energy_haps"], it["total_energy_leo"];
      success := success + [SuccessRow(totalRequests, successRate)];
      energy := energy + [EnergyRow(totalRequests, bs, BS)];
      energy := energy + [EnergyRow(totalRequests, haps, HAPS)];
      energy := energy + [EnergyRow(totalRequests, leo, LEO)];
      completed := completed + [CompletedRow(totalRequests, bs + haps + leo)];
      assert iterations[..k + 1][..k] == iterations[..k];
    }
    assert iterations[..|iterations|] == iterations;
    r := Ok(Tables(success, energy, completed));
  }

  /** The energy table and the completed table carry the same energy in total: each
      iteration's three tagged rows add up to its completed row. */
  lemma {:induction false} EnergyConserved(iterations: seq<map<string, real>>)
    requires AllHaveFields(iterations)
    ensures Energy(EnergyTable(iterations)) == TotalEnergy(CompletedTable(iterations))
  {
    var n := |iterations|;
    if n > 0 {
      var front := iterations[..n - 1];
      EnergyConserved(front);
      var rows := EnergyRowsOf(iterations[n - 1]);
      EnergyAppend(EnergyTable(front), rows);
      assert Energy(rows[..2][..1]) == rows[0].energy by {
        assert rows[..2][..1][..0] == [];
      }
      assert Energy(rows) == rows[0].energy + rows[1].energy + rows[2].energy;
      assert CompletedTable(iterations)[..n - 1] == CompletedTable(front);
    }
  }
}
