/** Record types and state fields of the simulator (SimOS.h).

    The C++ containers are modelled abstractly: `std::vector`, `std::list`
    and `std::queue` become `seq`, `std::unordered_map` becomes `map`,
    `unsigned long long` becomes `nat` and `std::string` becomes `string`.
 */
module SimTypes {

  /** Marks both an idle CPU and a missing parent. */
  const NO_PROCESS: int := -1

  /** The synthetic operating-system process created by the constructor. */
  const OS_PID: int := 1

  /** The first identifier handed to a user process. */
  const FIRST_USER_PID: int := 2

  datatype Option<T> = None | Some(value: T)

  /** A read request against one disk. The default value (PID 0, empty name)
      is the sentinel reported for an idle or invalid disk. */
  datatype FileReadRequest = FileReadRequest(PID: int, fileName: string)

  const EMPTY_REQUEST: FileReadRequest := FileReadRequest(0, "")

  /** One entry of the memory report: an occupied range and its owner. */
  datatype MemoryItem = MemoryItem(itemAddress: nat, itemSize: nat, PID: int)

  type MemoryUse = seq<MemoryItem>

  datatype Process = Process(
    pid: int,
    priority: int,
    memorySize: nat,
    parentPid: int,
    children: seq<int>,
    isZombie: bool,
    memory: MemoryItem)

  /** A contiguous range [start, start + size) of the address space.
      `pid` carries meaning only when the block is occupied. */
  datatype MemoryBlock = MemoryBlock(start: nat, size: nat, isFree: bool, pid: int)

  /** One disk: the request in service (if any) and the FIFO of waiting ones.
      This pairs one slot of `activeDiskJobs_` with one entry of `diskQueues_`. */
  datatype Disk = Disk(active: Option<FileReadRequest>, queue: seq<FileReadRequest>)

  /** The private state fields of class SimOS. */
  datatype State = State(
    nextPid: int,
    cpuPid: int,
    totalRam: nat,
    blocks: seq<MemoryBlock>,
    procs: map<int, Process>,
    ready: seq<int>,
    disks: seq<Disk>)

  function End(b: MemoryBlock): nat {
    b.start + b.size
  }

  /** The report entry describing an occupied block. */
  function ItemOf(b: MemoryBlock): MemoryItem {
    MemoryItem(b.start, b.size, b.pid)
  }

  /** No value occurs twice in `s`. */
  predicate NoDup(s: seq<int>) {
    forall i, j :: 0 <= i < j < |s| ==> s[i] != s[j]
  }
}
