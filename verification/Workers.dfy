/** The workers of a pool, and how much they may still do. */
module Workers {

  /** Waiting for a job, busy with one, or gone for good. */
  datatype Worker = Idle | Busy(job: nat) | Gone

  function WorkOf(w: Worker): nat {
    match w
    case Idle => 1
    case Busy(_) => 2
    case Gone => 0
  }

  function WorkerWork(ws: seq<Worker>): nat {
    if ws == [] then 0 else WorkOf(ws[0]) + WorkerWork(ws[1..])
  }

  lemma {:induction false} WorkerWorkAt(ws: seq<Worker>, w: nat, v: Worker)
    requires w < |ws|
    ensures WorkerWork(ws[w := v]) - WorkOf(v) == WorkerWork(ws) - WorkOf(ws[w])
  {
    if w > 0 {
      assert ws[w := v][1..] == ws[1..][w - 1 := v];
      WorkerWorkAt(ws[1..], w - 1, v);
    } else {
      assert ws[0 := v][1..] == ws[1..];
    }
  }
}
