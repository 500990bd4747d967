/**
  device_lib.py's `GPUManager`: it keeps the caller's extra query fields and the
  records of the latest query, and every sort queries the GPUs afresh, stores
  the new records and returns a sorted copy of them. Each method takes the
  lines nvidia-smi prints for the query it makes.
*/
module GpuManagement {
  import opened Wrappers
  import opened GpuQuery
  import opened GpuSelection

  class GPUManager {
    /** The extra fields every query of this manager asks for, after the base fields. */
    var qargs: seq<string>
    /** The records of the latest successful query. */
    var gpus: seq<Record>
    /** The number of GPUs the first query found; later queries leave it as it is. */
    var gpuNum: nat

    /** Every record the manager holds came from a query: a device record. */
    predicate Valid()
      reads this
    {
      AllDevices(gpus)
    }

    /**
      `GPUManager(qargs)`: queries the GPUs and keeps the records and their number;
      when the query raises, so does the construction, and no manager results.
    */
    static method Create(qargs: seq<string>, output: seq<string>) returns (r: Outcome<GPUManager>)
      ensures var q := QueryGpu(qargs, output);
        && (q.Err? ==> r == Err(q.error))
        && (q.Ok? ==> r.Ok? && fresh(r.value) && r.value.Valid() &&
                      r.value.qargs == qargs && r.value.gpus == q.value && r.value.gpuNum == |q.value|)
    {
      var q := QueryGpu(qargs, output);
      QueryGpuSpec(qargs, output);
      if q.Err? {
        return Err(q.error);
      }
      var m := new GPUManager;
      m.qargs := qargs;
      m.gpus := q.value;
      m.gpuNum := |q.value|;
      return Ok(m);
    }

    /**
      Re-queries with the manager's fields followed by `extra`. A successful query
      replaces `gpus`; a failing one raises and leaves it as it was.
    */
    method Requery(extra: seq<string>, output: seq<string>) returns (r: Outcome<seq<Record>>)
      requires Valid()
      modifies this`gpus
      ensures Valid()
      ensures r == QueryGpu(qargs + extra, output)
      ensures r.Ok? ==> gpus == r.value
      ensures r.Err? ==> gpus == old(gpus)
    {
      r := QueryGpu(qargs + extra, output);
      QueryGpuSpec(qargs + extra, output);
      if r.Ok? {
        gpus := r.value;
      }
    }

    /**
      `sort_by_memory(by_size, qargs)`: the fresh records by free memory (`by_size`)
      or by free memory rate, largest first, ties in query order.
    */
    method SortByMemory(bySize: bool, extra: seq<string>, output: seq<string>) returns (r: Outcome<seq<Record>>)
      requires Valid()
      modifies this`gpus
      ensures Valid()
      ensures var q := QueryGpu(qargs + extra, output);
        && (q.Err? ==> r == Err(q.error) && gpus == old(gpus))
        && (q.Ok? ==> gpus == q.value && r == MemoryOrder(gpus, bySize))
    {
      var q := Requery(extra, output);
      if q.Err? {
        return Err(q.error);
      }
      r := MemoryOrder(gpus, bySize);
    }

    /** `sort_by_power(qargs)`: the fresh records by power ratio, smallest first, ties in query order. */
    method SortByPower(extra: seq<string>, output: seq<string>) returns (r: Outcome<seq<Record>>)
      requires Valid()
      modifies this`gpus
      ensures Valid()
      ensures var q := QueryGpu(qargs + extra, output);
        && (q.Err? ==> r == Err(q.error) && gpus == old(gpus))
        && (q.Ok? ==> gpus == q.value && r == PowerOrder(gpus))
    {
      var q := Requery(extra, output);
      if q.Err? {
        return Err(q.error);
      }
      r := PowerOrder(gpus);
    }

    /**
      `sort_by_cust(key, qargs, reverse)`: queries first, then sorts the fresh
      records by a name among `self.qargs + qargs` or by a key function; any
      other key raises ValueError.
    */
    method SortByCust(key: CustomKey, extra: seq<string>, reverse: bool, output: seq<string>)
      returns (r: Outcome<seq<Record>>)
      requires Valid()
      modifies this`gpus
      ensures Valid()
      ensures var q := QueryGpu(qargs + extra, output);
        && (q.Err? ==> r == Err(q.error) && gpus == old(gpus))
        && (q.Ok? ==> gpus == q.value && r == CustomOrder(gpus, key, qargs + extra, reverse))
    {
      var q := Requery(extra, output);
      if q.Err? {
        return Err(q.error);
      }
      r := CustomOrder(gpus, key, qargs + extra, reverse);
    }

    /**
      `auto_choice(mode)`: sorts as the mode says (0: by free memory; 1 and 2: by
      power; anything else: by free memory rate) with no extra fields, and names
      the first GPU of the result.
    */
    method AutoChoice(mode: int, output: seq<string>) returns (r: Outcome<string>)
      requires Valid()
      modifies this`gpus
      ensures Valid()
      ensures var q := QueryGpu(qargs, output);
        && (q.Err? ==> r == Err(q.error) && gpus == old(gpus))
        && (q.Ok? ==> gpus == q.value && r == GpuSelection.AutoChoice(gpus, mode))
    {
      assert qargs + [] == qargs;
      var sorted: Outcome<seq<Record>>;
      if mode == 0 {
        sorted := SortByMemory(true, [], output);
      } else if mode == 1 || mode == 2 {
        sorted := SortByPower([], output);
      } else {
        sorted := SortByMemory(false, [], output);
      }
      if sorted.Err? {
        return Err(sorted.error);
      }
      var xs := sorted.value;
      if xs == [] {
        return Err(NoDevice);
      }
      assert xs[0] in multiset(gpus);
      r := Ok(DeviceName(xs[0]));
    }
  }
}
