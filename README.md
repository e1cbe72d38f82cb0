# CPU scheduling simulator (parta.c) in Dafny

This project models the `parta.c` CPU-scheduling simulator. The simulator keeps a table of
process control blocks. Each `struct pcb` has a `pid`, the CPU time it still needs
(`burst_left`) and the time it has spent ready but not running (`wait`). The table is run
under First-Come-First-Served (FCFS) or Round-Robin (RR). Both schedulers go through one
step routine, `run_proc`. It charges the running time to the running process and charges
the same amount as waiting time to every other process that still has work.

Files:

- `procs.dfy` (module `Procs`): the record `Pcb` and the table as `seq<Pcb>`. It defines
  the outstanding work `Total` (the sum of `burstLeft`), `Sum` over burst lists, the table
  `Initial` that `init_procs` builds, and the predicates `NonNegative` and `Finished`.
- `scheduling.dfy` (module `Scheduling`): reference definitions on values.
  - `Run` is one `run_proc` step.
  - `ScanFrom` and `Next` are the circular search of `rr_next`. `IsNext` states what that
    search promises.
  - `Fcfs(s, k)` is the FCFS loop after `k` turns.
  - `RrFrom` is the RR loop from a given iteration on.
  - The file also holds the lemmas about these definitions: conservation of work, the
    closed form of FCFS waits, termination and completion of RR, RR with a large quantum
    equal to FCFS, and the two worked scenarios for bursts 5, 3, 8.
- `parta.dfy` (module `Parta`): the five C routines as methods over an `array<Pcb>`,
  updated in place. Each method is proved to compute its reference definition. The array's
  length plays the role of `plen`.

The code uses two different tests for "this process still has work". `run_proc`
(parta.c:44) and `rr_run` (parta.c:99) test `burst_left > 0`. `rr_next` tests
`burst_left == 0` (parta.c:77), so it returns the first process whose burst is *not zero*.
`Run` and `RrFrom` use the first test and `IsNext` and `ScanFrom` the second, as the code
does. The two tests agree only when no burst is negative, which the schedulers require (see
"## Left out").

## Model

| member | source | states |
|---|---|---|
| `Parta.InitProcs` | parta.c:10-23 | returns a fresh table of `blen` records; record `i` has pid `i`, burst `bursts[i]` and wait 0, i.e. the table `Initial(bursts[..blen])` |
| `Procs.Initial` | parta.c:16-20 | the table built from `bursts` has one record per burst; record `i` has pid `i`, burst `bursts[i]` and wait 0 |
| `Procs.TotalInitial` | parta.c:16-20 | the outstanding work in a freshly built table equals the sum of the bursts it was built from |
| `Parta.RunProc` | parta.c:40-48 | the new table is `Run(old table, current, amount)`: `current`'s burst drops by `amount`, and every other record whose burst is positive gets `amount` more wait. No other field, no pid and `current`'s own wait change |
| `Scheduling.Run` | parta.c:40-48 | one `run_proc` step on a table, record by record: `current`'s burst drops by `amount`; every other record with a positive burst gets `amount` more wait; all else is unchanged. The table keeps its length |
| `Scheduling.RunStep` | parta.c:40-48 | a legal step (`0 <= amount <= burst_left[current]`) conserves work: the total outstanding burst drops by exactly `amount`, and no burst goes negative |
| `Scheduling.RunNothing` | parta.c:40-48 | a step of length 0 leaves the table unchanged |
| `Procs.TotalAfterUpdate` | parta.c:41 | decreasing one record's burst by `d` and no other burst decreases the total by `d` |
| `Procs.TotalOfNonNegative` | parta.c:97-113 | with non-negative bursts the outstanding work is non-negative, and it is zero exactly when every process has finished. This is the well-founded measure of the RR loop |
| `Parta.FcfsRun` | parta.c:55-65 | the table ends as `Fcfs(old, n)`. The return value is the sum of the initial bursts. Every record ends with burst 0 and its own pid. A record whose initial burst was positive has waited for the sum of the initial bursts of all lower indices more than before; any other record's wait is unchanged |
| `Scheduling.Fcfs` | parta.c:58-62 | the FCFS loop after `k` turns, as repeated `run_proc` steps; it keeps the table's length |
| `Scheduling.FcfsAt` | parta.c:58-62 | after `k` turns, processes `0..k-1` have burst 0 and the others keep their burst. A process with positive initial burst has waited for the bursts of the processes before it that have had their turn (`Total(s[..min(i,k)])`). Pids never change, and a process with no initial work never waits |
| `Scheduling.FcfsCompletes` | parta.c:55-65 | at the end of FCFS every process has finished, and each record equals `Pcb(pid, 0, wait + (burst > 0 ? sum of earlier bursts : 0))` |
| `Scheduling.FcfsSkip` | parta.c:58-62 | FCFS turns of processes with burst 0 leave the table unchanged |
| `Scheduling.FcfsLaterWaitsLonger` | parta.c:58-62 | under FCFS, of two processes with work and equal starting wait, the later one waits at least as long as the earlier one's wait plus its burst |
| `Procs.TotalPrefixGrows` | parta.c:58-62 | with non-negative bursts a longer prefix of the table never holds less work |
| `Scheduling.FcfsExample` | parta.c:55-65 | bursts 5, 3, 8 under FCFS: elapsed 16, final waits 0, 5, 8 |
| `Scheduling.Succ` | parta.c:73 | `(i + 1) % plen` wraps the last index to 0 and otherwise adds 1 |
| `Parta.RrNext` | parta.c:72-86 | reads the table only. It returns `Next(table, current)` and meets `IsNext`: -1 exactly when every burst is 0; otherwise an index in `[0, plen)` whose burst is not 0, with every index strictly between `current` and it in circular order (starting at `(current+1) % plen`) finished |
| `Scheduling.ScanFrom` | parta.c:77-85 | the scan loop of `rr_next` positioned at `next`: it returns -1 or an index in range whose burst is not 0 |
| `Scheduling.Next` | parta.c:72-86 | `rr_next` as a function: the scan started at `(current + 1) % plen`; it returns -1 or an index in range whose burst is not 0 |
| `Scheduling.NextIsNext` | parta.c:72-86 | the reference search `Next` meets `IsNext` |
| `Scheduling.ScanFromIsNext` | parta.c:77-83 | a scan positioned at `next`, having passed only finished processes, ends with the `IsNext` answer |
| `Scheduling.NextOnlyCurrent` | parta.c:72-86 | when `current` is the only unfinished process, the search returns `current` itself |
| `Scheduling.Slice` | parta.c:101 | the RR slice `min(quantum, burst_left)` satisfies `1 <= amount <= quantum` and `amount <= burst_left`, and equals one of the two |
| `Parta.RrRun` | parta.c:93-116 | the table and return value equal `RrFrom(old, 0, quantum)`. The return value is the sum of the initial bursts. Every process ends finished, with its pid, and with a wait no smaller than before; a process that started with burst 0 is unchanged |
| `Scheduling.RrFrom` | parta.c:93-116 | the RR loop from the iteration at `current`, as repeated `run_proc` steps of `min(quantum, burst_left)` followed by `rr_next`. It terminates (measure: outstanding work, then whether the current process is finished) and keeps the table's length |
| `Scheduling.RrFromWork` | parta.c:97-113 | the RR loop leaves every process finished and reports elapsed time equal to the outstanding work it started with |
| `Scheduling.RrFromKeepsRecords` | parta.c:97-113 | the RR loop keeps every pid and never shortens a wait. A process whose burst is 0 at the start is left exactly as it was: it never runs and never waits |
| `Scheduling.RrLargeQuantumIsFcfs` | parta.c:93-116 | when the quantum is at least every burst, RR ends in exactly the table FCFS ends in, waits included |
| `Scheduling.RrFromFcfsTurn` | parta.c:97-113 | RR started at process `k` on the table FCFS has after `k` turns ends where FCFS ends, if the quantum covers every burst |
| `Scheduling.RrFromWholeBurst` | parta.c:99-108 | one RR iteration whose quantum covers the current burst runs that process to completion and then stops or continues at the process `rr_next` picks; no burst goes negative |
| `Scheduling.FcfsTurnBursts` | parta.c:58-62 | after FCFS turn `k` the processes up to `k` have burst 0 and the later ones keep their initial burst |
| `Scheduling.NextPastDone` | parta.c:72-86 | on a table whose processes up to `k` are finished, the search from `k` returns the first later process with work, or -1 when there is none |
| `Scheduling.FcfsNoNextTurn` | parta.c:58-62 | after FCFS turn `k`, if the search from `k` finds no process with work, the remaining FCFS turns change nothing |
| `Scheduling.FcfsNextTurn` | parta.c:58-62 | after FCFS turn `k`, the process the search from `k` picks lies after `k`, and the FCFS turns before it change nothing |
| `Scheduling.RrFromStep` | parta.c:99-108 | one RR iteration on a process with work: it runs for `min(quantum, burst_left)`, then the loop stops (when `rr_next` returns -1) or continues at the process `rr_next` picks, adding the slice to the elapsed time |
| `Scheduling.RrExampleLastSlices` | parta.c:93-116 | the last three slices of the RR example (processes 2, 0, 2 for 4, 1, 4) end in waits 7, 4, 8 after 9 time units |
| `Scheduling.RrExampleLaterSlices` | parta.c:93-116 | the last four slices of the RR example (process 1 for 3, then the three above) end in waits 7, 4, 8 after 12 time units |
| `Scheduling.RrExample` | parta.c:93-116 | bursts 5, 3, 8 with quantum 4 end with every process finished, elapsed time 16 and final waits 7, 4, 8 |

## Left out

- `printall` (parta.c:29-33) writes diagnostics to standard output and changes no state. It is not modelled.
- A failed `malloc` in `init_procs` (parta.c:11-14) is not modelled, because allocation in Dafny cannot fail. `InitProcs` always returns a table. Its `blen == 0` case returns an empty array, whereas C's `malloc(0)` behaviour is implementation-defined.
- 32-bit `int` overflow of `current_time`, `wait` and `burst_left` is not modelled. All of them are unbounded integers.
- `plen` is not a separate parameter. It is the array's length, so a caller cannot pass a `plen` that disagrees with the table.
- Inputs on which the C code has undefined or unintended behaviour are excluded by preconditions instead of being modelled:
  - `RunProc` requires `0 <= amount <= burst_left[current]`;
  - `FcfsRun` and `RrRun` require non-negative bursts. With a negative burst the C `rr_run` never ends: for bursts `[-1]`, the test at parta.c:99 never runs process 0, and `rr_next(0)` returns 0 on every pass because it tests `== 0` (parta.c:77);
  - `RrNext` and `RrRun` require a non-empty table (C would compute `% 0`);
  - `RrRun` requires `quantum >= 1` (otherwise the C loop need not terminate).
- The driver that reads bursts, picks an algorithm and prints the results is not part of this model.
