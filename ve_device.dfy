/** The VE (vector engine) offload device: the sub-allocator that aligns
    device blocks and keeps each block's raw address in a header word, the
    kernel table and kernel launch of the VEO process handle, the lazily
    created process handle, and the device's choice of allocator. The calls
    into the VEO runtime (process creation, device allocation, kernel calls,
    symbol lookup, memory reads) are not visible here: their results are
    parameters. */
module VeDevice {
  import opened Errors

  /** 64-bit unsigned arithmetic of size_t and uint64_t. */
  const U64: nat := 0x1_0000_0000_0000_0000
  /** sizeof(uint64_t) and sizeof(intptr_t). */
  const WordSize: nat := 8

  predicate IsU64(x: int) { 0 <= x < U64 }

  function Add64(x: nat, y: nat): (r: nat)
    ensures IsU64(r) && (x + y < U64 ==> r == x + y)
  {
    (x + y) % U64
  }

  function Sub64(x: nat, y: nat): (r: nat)
    requires IsU64(x) && IsU64(y)
    ensures IsU64(r) && (y <= x ==> r == x - y)
  {
    if y <= x then x - y else x - y + U64
  }

  /** x & ~m, bit by bit, for unsigned values. */
  function AndNot(x: nat, m: nat): (r: nat)
    ensures r <= x
    decreases x
  {
    if x == 0 then 0
    else 2 * AndNot(x / 2, m / 2) + (if x % 2 == 1 && m % 2 == 0 then 1 else 0)
  }

  function Pow2(k: nat): (r: nat)
    ensures r >= 1
  {
    if k == 0 then 1 else 2 * Pow2(k - 1)
  }

  /** x >> k. */
  function Shr(x: nat, k: nat): nat {
    if k == 0 then x else Shr(x / 2, k - 1)
  }

  lemma {:induction false} AndNotZero(x: nat)
    ensures AndNot(x, 0) == x
    decreases x
  {
    if x > 0 { AndNotZero(x / 2); }
  }

  lemma AndNotHalf(x: nat, k: nat)
    requires k > 0
    ensures AndNot(x, Pow2(k) - 1) == 2 * AndNot(x / 2, Pow2(k - 1) - 1)
  {
    assert (Pow2(k) - 1) / 2 == Pow2(k - 1) - 1 && (Pow2(k) - 1) % 2 == 1;
  }

  /** Clearing the bits below a power of two rounds down to a multiple of
      it. */
  lemma {:induction false} AndNotPow2(x: nat, k: nat)
    ensures var y := AndNot(x, Pow2(k) - 1); y <= x < y + Pow2(k) && y == Pow2(k) * Shr(x, k)
    decreases k
  {
    if k == 0 {
      AndNotZero(x);
    } else {
      var p, s := Pow2(k - 1), Shr(x / 2, k - 1);
      var half := AndNot(x / 2, p - 1);
      AndNotPow2(x / 2, k - 1);
      AndNotHalf(x, k);
      assert Pow2(k) == 2 * p && Shr(x, k) == s;
      assert half <= x / 2 < half + p && half == p * s;
      DoubleProduct(p, s);
    }
  }

  lemma DoubleProduct(p: nat, s: nat)
    ensures 2 * (p * s) == (2 * p) * s
  {
  }

  lemma MulStep(a: nat, m: nat, n: nat)
    requires m < n
    ensures a * m + a <= a * n
  {
    var d: nat := n - m - 1;
    assert a * n == a * m + a + a * d;
  }

  lemma ModUnique(x: nat, a: nat, q: nat, r: nat)
    requires a > 0 && x == a * q + r && r < a
    ensures x % a == r
  {
    var q0, r0 := x / a, x % a;
    assert x == a * q0 + r0;
    if q > q0 {
      MulStep(a, q0, q);
      assert false;
    }
    if q < q0 {
      MulStep(a, q, q0);
      assert false;
    }
  }

  /** The size Alloc asks the device for: the payload, room to align, and
      the header word. */
  function BlockSize(alignments: nat, numBytes: nat): nat {
    Add64(Add64(numBytes, alignments), WordSize)
  }

  /** The address Alloc returns for the raw block at `raw`:
      (raw + 8 + alignments) & ~(alignments - 1), in 64 bits. */
  function AlignedAddress(raw: nat, alignments: nat): (r: nat)
    requires IsU64(alignments)
    ensures IsU64(r)
  {
    AndNot(Add64(Add64(raw, WordSize), alignments), Sub64(alignments, 1))
  }

  /** The header word just below the returned address. */
  function HeaderAddress(p: nat): nat
    requires IsU64(p)
  {
    Sub64(p, WordSize)
  }

  /** For a power-of-two alignment and a block that does not wrap the
      address space, the returned address is aligned, its header word lies
      in the raw block and the payload fits behind it. */
  lemma AlignedAddressFits(raw: nat, k: nat, numBytes: nat)
    requires raw + numBytes + Pow2(k) + WordSize < U64
    ensures var a, p := Pow2(k), AlignedAddress(raw, Pow2(k));
      && p % a == 0
      && raw <= HeaderAddress(p) && HeaderAddress(p) + WordSize == p
      && p + numBytes <= raw + BlockSize(a, numBytes)
      && BlockSize(a, numBytes) == numBytes + a + WordSize
  {
    var a := Pow2(k);
    var x := raw + WordSize + a;
    AndNotPow2(x, k);
    assert AlignedAddress(raw, a) == AndNot(x, a - 1);
    ModUnique(AndNot(x, a - 1), a, Shr(x, k), 0);
  }

  /** The part of a VEO process handle the model follows. */
  class Veo {
    /** kernel_map_: kernel name to device symbol. */
    var kernelMap: map<string, nat>
    /** Words stored by the allocator, by address. */
    var memory: map<nat, nat>
    /** The sizes requested from alloc_mem, the addresses handed to
        free_mem, and the kernel calls issued (symbol, argument length),
        in order. */
    var allocRequests: seq<nat>
    var freed: seq<nat>
    var calls: seq<(nat, nat)>

    constructor()
      ensures kernelMap == map[] && memory == map[] && allocRequests == [] && freed == [] && calls == []
    {
      kernelMap := map[];
      memory := map[];
      allocRequests := [];
      freed := [];
      calls := [];
    }

    /** VEO::compute: the kernel is looked up before anything is issued;
        then the asynchronous call, the wait and the kernel's own return
        value are checked in turn. */
    method Compute(name: string, len: nat, outcome: CallOutcome) returns (s: Status)
      modifies this`calls
      ensures s == ComputeStatus(kernelMap, name, outcome)
      ensures name !in kernelMap ==> calls == old(calls)
      ensures name in kernelMap ==> calls == old(calls) + [(kernelMap[name], len)]
    {
      if name !in kernelMap {
        return Error(Internal, "Kernel not found: " + name);
      }
      var sym := kernelMap[name];
      calls := calls + [(sym, len)];
      if !outcome.requestValid {
        return Error(Internal, "Failed to call kernel");
      }
      if outcome.waitStatus != 0 {
        return Error(Internal, "Failed to wait kernel result");
      }
      if outcome.retval != 0 {
        return Error(Internal, "Failed in the kernel");
      }
      return Ok;
    }

    /** load_kernel_syms: fetch the kernel count and the table address,
        read the table, and enter each row's symbol under its name; a row
        whose function has no symbol stops the loading. */
    method LoadKernelSyms(numKernels: Result<nat>, tableAddr: Result<nat>, readStatus: int,
                          table: seq<KernelRow>, syms: map<string, nat>) returns (s: Status)
      requires numKernels.Success? && tableAddr.Success? && readStatus == 0 ==> |table| == numKernels.value
      modifies this`kernelMap
      ensures s == LoadStatus(numKernels, tableAddr, readStatus, table, syms)
      ensures kernelMap == old(kernelMap) + TableMap(table[..LoadedRows(numKernels, tableAddr, readStatus, table, syms)], syms)
    {
      if numKernels.Failure? {
        return Error(numKernels.code, numKernels.msg);
      }
      if tableAddr.Failure? {
        return Error(tableAddr.code, tableAddr.msg);
      }
      if readStatus != 0 {
        return Error(Internal, "Failed to read mem");
      }
      var i := 0;
      while i < numKernels.value
        invariant 0 <= i <= |table| && FirstMissing(table, syms) >= i
        invariant kernelMap == old(kernelMap) + TableMap(table[..i], syms)
      {
        var sym := SymbolOf(syms, table[i].func);
        if sym == 0 {
          assert FirstMissing(table, syms) == i;
          return Error(Internal, "Failed to get symbol for " + table[i].func);
        }
        TableMapSnoc(table, i, syms);
        ghost var before := kernelMap;
        kernelMap := kernelMap[table[i].name := sym];
        UnionUpdate(old(kernelMap), TableMap(table[..i], syms), table[i].name, sym);
        i := i + 1;
      }
      assert table[..i] == table;
      return Ok;
    }
  }

  /** What the VEO runtime answers to a kernel call: whether a request id
      was issued, the wait's status and the kernel's return value. */
  datatype CallOutcome = CallOutcome(requestValid: bool, waitStatus: int, retval: int)

  /** The status VEO::compute returns. */
  function ComputeStatus(kernels: map<string, nat>, name: string, outcome: CallOutcome): (s: Status)
    ensures s == Ok <==> name in kernels && outcome.requestValid && outcome.waitStatus == 0 && outcome.retval == 0
    ensures s.Error? ==> s.code == Internal
    ensures name !in kernels ==> s == Error(Internal, "Kernel not found: " + name)
    ensures name in kernels && !outcome.requestValid ==> s.msg == "Failed to call kernel"
    ensures name in kernels && outcome.requestValid && outcome.waitStatus != 0 ==> s.msg == "Failed to wait kernel result"
    ensures name in kernels && outcome.requestValid && outcome.waitStatus == 0 && outcome.retval != 0 ==> s.msg == "Failed in the kernel"
  {
    if name !in kernels then Error(Internal, "Kernel not found: " + name)
    else if !outcome.requestValid then Error(Internal, "Failed to call kernel")
    else if outcome.waitStatus != 0 then Error(Internal, "Failed to wait kernel result")
    else if outcome.retval != 0 then Error(Internal, "Failed in the kernel")
    else Ok
  }

  /** A row of the device's kernel table: the kernel's name and the
      function that implements it. */
  datatype KernelRow = KernelRow(name: string, func: string)

  /** veo_get_sym: the symbol of a function, 0 when there is none. */
  function SymbolOf(syms: map<string, nat>, func: string): nat {
    if func in syms then syms[func] else 0
  }

  /** The kernel map entries of the given rows, entered in order. */
  function TableMap(rows: seq<KernelRow>, syms: map<string, nat>): (m: map<string, nat>)
    ensures m.Keys == set i | 0 <= i < |rows| :: rows[i].name
    decreases |rows|
  {
    if |rows| == 0 then map[]
    else TableMap(rows[..|rows| - 1], syms)[rows[|rows| - 1].name := SymbolOf(syms, rows[|rows| - 1].func)]
  }

  lemma TableMapSnoc(table: seq<KernelRow>, i: nat, syms: map<string, nat>)
    requires i < |table|
    ensures TableMap(table[..i + 1], syms) == TableMap(table[..i], syms)[table[i].name := SymbolOf(syms, table[i].func)]
  {
    assert table[..i + 1][..i] == table[..i];
  }

  /** A later row with the same name overrides an earlier one: each name
      maps to the symbol of its last row. */
  lemma {:induction false} TableMapLastWins(rows: seq<KernelRow>, syms: map<string, nat>, i: nat)
    requires i < |rows| && forall j :: i < j < |rows| ==> rows[j].name != rows[i].name
    ensures TableMap(rows, syms)[rows[i].name] == SymbolOf(syms, rows[i].func)
    decreases |rows|
  {
    if i < |rows| - 1 {
      var init := rows[..|rows| - 1];
      assert forall j :: i < j < |init| ==> init[j] == rows[j];
      TableMapLastWins(init, syms, i);
    }
  }

  lemma UnionUpdate(m: map<string, nat>, t: map<string, nat>, k: string, v: nat)
    ensures (m + t)[k := v] == m + t[k := v]
  {
  }

  /** The index of the first row whose function has no symbol, or the
      number of rows. */
  function FirstMissing(table: seq<KernelRow>, syms: map<string, nat>): (k: nat)
    ensures k <= |table| && (k < |table| ==> SymbolOf(syms, table[k].func) == 0)
    ensures forall j :: 0 <= j < k ==> SymbolOf(syms, table[j].func) != 0
    decreases |table|
  {
    if |table| == 0 then 0
    else if SymbolOf(syms, table[0].func) == 0 then 0
    else
      var k := 1 + FirstMissing(table[1..], syms);
      assert forall j :: 1 <= j < |table| ==> table[j] == table[1..][j - 1];
      k
  }

  /** How many rows load_kernel_syms enters before it stops. */
  function LoadedRows(numKernels: Result<nat>, tableAddr: Result<nat>, readStatus: int,
                      table: seq<KernelRow>, syms: map<string, nat>): (k: nat)
    ensures k <= |table|
  {
    if numKernels.Failure? || tableAddr.Failure? || readStatus != 0 then 0 else FirstMissing(table, syms)
  }

  /** The status load_kernel_syms returns. */
  function LoadStatus(numKernels: Result<nat>, tableAddr: Result<nat>, readStatus: int,
                      table: seq<KernelRow>, syms: map<string, nat>): (s: Status)
    ensures s == Ok <==> numKernels.Success? && tableAddr.Success? && readStatus == 0
                          && forall j :: 0 <= j < |table| ==> SymbolOf(syms, table[j].func) != 0
    ensures numKernels.Failure? ==> s == Error(numKernels.code, numKernels.msg)
    ensures numKernels.Success? && readStatus != 0 && tableAddr.Success? ==> s == Error(Internal, "Failed to read mem")
    ensures s.Error? && numKernels.Success? && tableAddr.Success? && readStatus == 0 ==>
      s == Error(Internal, "Failed to get symbol for " + table[FirstMissing(table, syms)].func)
  {
    if numKernels.Failure? then Error(numKernels.code, numKernels.msg)
    else if tableAddr.Failure? then Error(tableAddr.code, tableAddr.msg)
    else if readStatus != 0 then Error(Internal, "Failed to read mem")
    else
      var k := FirstMissing(table, syms);
      if k < |table| then Error(Internal, "Failed to get symbol for " + table[k].func) else Ok
  }

  /** After a successful load every row's name maps to a nonzero symbol,
      that of its last row. */
  lemma LoadedTableHasEveryKernel(table: seq<KernelRow>, syms: map<string, nat>, i: nat)
    requires forall j :: 0 <= j < |table| ==> SymbolOf(syms, table[j].func) != 0
    requires i < |table| && forall j :: i < j < |table| ==> table[j].name != table[i].name
    ensures table[i].name in TableMap(table, syms) && TableMap(table, syms)[table[i].name] == SymbolOf(syms, table[i].func) != 0
  {
    TableMapLastWins(table, syms, i);
  }

  /** VEMemAllocator: the sub-allocator handing out aligned device blocks. */
  class VeMemAllocator {
    const veo: Veo

    constructor(veo: Veo)
      ensures this.veo == veo
    {
      this.veo := veo;
    }

    /** Alloc: ask for payload, alignment and header, align the address
        past the header word, and store the raw address in that word. */
    method Alloc(alignments: nat, numBytes: nat, raw: nat) returns (p: nat)
      requires IsU64(alignments) && IsU64(numBytes) && IsU64(raw)
      modifies veo`allocRequests, veo`memory
      ensures veo.allocRequests == old(veo.allocRequests) + [BlockSize(alignments, numBytes)]
      ensures p == AlignedAddress(raw, alignments) && IsU64(p)
      ensures veo.memory == old(veo.memory)[HeaderAddress(p) := raw]
    {
      var n := BlockSize(alignments, numBytes);
      veo.allocRequests := veo.allocRequests + [n];
      p := AlignedAddress(raw, alignments);
      veo.memory := veo.memory[HeaderAddress(p) := raw];
    }

    /** Free: read the raw address from the header word and free it. */
    method Free(p: nat, numBytes: nat)
      requires IsU64(p) && HeaderAddress(p) in veo.memory
      modifies veo`freed
      ensures veo.freed == old(veo.freed) + [veo.memory[HeaderAddress(p)]]
    {
      var raw := veo.memory[HeaderAddress(p)];
      veo.freed := veo.freed + [raw];
    }

    /** Freeing what Alloc returned hands free_mem the raw address
        alloc_mem gave, whatever the alignment. */
    method AllocThenFree(alignments: nat, numBytes: nat, raw: nat) returns (p: nat)
      requires IsU64(alignments) && IsU64(numBytes) && IsU64(raw)
      modifies veo`allocRequests, veo`memory, veo`freed
      ensures veo.freed == old(veo.freed) + [raw]
      ensures p == AlignedAddress(raw, alignments)
    {
      p := Alloc(alignments, numBytes, raw);
      Free(p, numBytes);
    }
  }

  /** VEOFactory: the process-wide VEO handle, created on first use. */
  class VeoFactory {
    var veo: Veo?

    constructor()
      ensures veo == null
    {
      veo := null;
    }

    /** GetOrCreate: the first call creates the handle and keeps it even
        if its initialisation fails (`initStatus` is what VEO::init
        answers); every call after that returns the same handle with OK. */
    method GetOrCreate(nodeid: int, initStatus: Status) returns (s: Status, p: Veo?)
      modifies this
      ensures veo != null
      ensures old(veo) != null ==> veo == old(veo) && s == Ok && p == veo
      ensures old(veo) == null ==> fresh(veo) && s == initStatus && (s == Ok ==> p == veo) && (s != Ok ==> p == null)
    {
      if veo == null {
        veo := new Veo();
        if initStatus != Ok {
          return initStatus, null;
        }
      }
      return Ok, veo;
    }
  }

  /** An allocator, told apart by identity. */
  class Allocator {
    const name: string

    constructor(name: string)
      ensures this.name == name
    {
      this.name := name;
    }
  }

  /** VEDevice: the device with its own VE allocator and the host's CPU
      allocator. */
  class VeDevice {
    const cpuAllocator: Allocator
    const veAllocator: Allocator

    /** The device factory builds a fresh VE allocator for the device. */
    constructor(cpuAllocator: Allocator)
      ensures this.cpuAllocator == cpuAllocator && fresh(veAllocator)
      ensures Valid()
    {
      this.cpuAllocator := cpuAllocator;
      veAllocator := new Allocator("VE_0_bfc");
    }

    predicate Valid() {
      cpuAllocator != veAllocator
    }

    /** GetAllocator: the CPU allocator exactly for host memory. */
    function GetAllocator(onHost: bool): (r: Allocator)
      requires Valid()
      ensures r == cpuAllocator <==> onHost
      ensures r == veAllocator <==> !onHost
    {
      if onHost then cpuAllocator else veAllocator
    }
  }
}
