# A verified model of SwitchML

SwitchML aggregates tensors in the network: workers stream fixed-size packets to a switch, a slot of the
switch adds one packet from every worker, and the sum goes back to all of them. Packets may be lost, so
workers send again, and every slot has two sets of registers that are used in turn. This project models the
parts of SwitchML whose correctness is not visible in any single function, and proves them in Dafny 4.11.
Verify everything with `dafny verify dfyconfig.toml`.

| file | what it models |
|---|---|
| `Slots.dfy`, `Aggregates.dfy` | one slot of the switch; sums over sets of workers, modulo 2^32, and largest exponents |
| `Protocol.dfy`, `Runs.dfy`, `Liveness.dfy` | the aggregation protocol of n workers and a slot, as interleaved steps; exactly-once aggregation, one broadcast per round, no stuck state |
| `UnorderedWire.dfy`, `FifoWire.dfy`, `FifoLiveness.dfy` | the comparison of 16-bit message ids that the worker really makes: safe exactly when, and never stuck |
| `Bitmaps.dfy`, `NextStepTable.dfy`, `SwitchPipeline.dfy` | the P4 ingress pipeline on its register arrays and the controller's decision table, refining `Slots.dfy` |
| `RdmaWorker.dfy`, `RdmaSlices.dfy`, `TimeoutQueues.dfy` | the RDMA worker thread, its loop over a job slice, and its timeout queue |
| `RdmaReceiver.dfy`, `QpRouting.dfy` | packet sequence numbers at the switch; routing of results to queue pairs |
| `Floats.dfy`, `Quantizer.dfy`, `Accuracy.dfy` | binary floating point and the quantizer's arithmetic: why 32-bit sums never overflow, and how near the results are to the true sums |
| `AllReduceJobs.dfy`, `DummyAllReduce.dfy`, `FloatJobs.dfy` | the prepostprocessor, the worker loop over chained packet ids and the dummy backend: an all-reduce from end to end |
| `FloatTensors.dfy` | float tensors over the protocol, with the exponents one message ahead of the data |
| `Scheduling.dfy`, `SchedulerRuns.dfy`, `SchedulerProgress.dfy`, `SchedulerObjects.dfy` | the FIFO scheduler, the sense-reversing barrier, job statuses and the context's job counter, under all interleavings |
| `DpdkSlots.dfy` | the DPDK worker's use of the switch pool over a sequence of jobs |
| `Basics.dfy` | facts about numbers and finite sets |

How the protocol is modelled. Upstream channels are lossy FIFO sequences. The CONSUME0 and the HARVEST7 pass of
a packet are separate steps, and recirculated packets are picked in any order. Replies stay available to a
worker: they may be accepted late, repeatedly, out of order or never. The field `round` of a message is
history; no step of the switch reads it. `Protocol` lets a worker recognise the reply it awaits;
`UnorderedWire` and `FifoWire` replace that by the comparison of short ids, and show when it is as good.
The packet that goes out carries d0, which HARVEST7 reads, and d1, which CONSUME0 has read: the parser of the
second pass leaves d1 in the payload (dev_root/p4/parsers.p4:83-88). An `out` argument that no action assigns is
taken to keep its value, which concerns e0 in HARVEST7 and e1 in CONSUME0.

Names in the model are those of the program where the program has one. Fatal checks of the program are modelled
as a result that says so (`ok`, `illegal`, `crashed`) or, where it is proved that the caller never violates
them, as a precondition (the non-empty checks of `SendBurst` and `ReceiveBurst`).

Where the model disagrees with a comment or shows a limit of the program:

- Results of a queue pair with unordered replies are safe exactly for slices of at most
  65536 / (largest power of two dividing the batch size, at most 65536) messages per queue pair
  (`UnorderedWire.UnorderedExactlyWithinPeriod`). With ordered replies there is no limit.
- A thread may come to the scheduler's barrier after `FifoScheduler::Stop` has destroyed it, which is fatal. It
  can happen exactly if, when the scheduler is stopped, some thread has made the first check of `GetJobSlice`
  and not come to the barrier yet (`SchedulerRuns.BarrierCheckFires`, `SchedulerRuns.MayComeTooLate`).
- Packets of the DPDK worker carry 8 bits of the job id. Late copies of an earlier job's packets are all ignored
  exactly if the two ids do not differ by a multiple of 256 (`DpdkSlots.EarlierJobIgnored`).
- The DPDK worker uses its slots one after another exactly for the job sizes in `DpdkSlots.Job.Fits`; nine
  packets with an extra batch on ten slots are not among them.
- The exponent that the quantizer sends covers a packet exactly if all its values are below 2^127
  (`Quantizer.PacketExponentCovers`); the comment in the source promises 2^e >= v for all.
- With exact arithmetic instead of floats, quantized sums could exceed INT32_MAX
  (`Quantizer.ExactArithmeticOverflows`).

## Model

| member | source | states |
|---|---|---|
| Runs.ExactlyOnceAggregation | dev_root/p4/switchml.p4:96-183 | In every run, with any losses, retransmissions, delays between the two passes and reordering of replies, every accepted result is in each lane the sum of all n workers' contributions to its round, each once, and its exponents are the largest ones |
| Runs.Lockstep | dev_root/client_lib/src/backends/rdma/rdma_worker_thread.cc:223-260 | In every run two workers' numbers of accepted rounds differ by at most one |
| Runs.RegistersTellTheRun | dev_root/p4/bitmap_checker.p4:84-98 | In every run each packet of each worker has been added 0 or 1 times, as the bitmaps and the number of complete rounds tell; no worker is in both sets; the counter is 0 or the number of missing contributions |
| Runs.OverwriteStartsRound | dev_root/p4/processor.p4:96-108 | A consumed packet finds an empty bitmap, so that it overwrites the sum, exactly when no worker has contributed to its round |
| Runs.OneBroadcastPerRound | dev_root/controller/next_step_selector.py:75-83 | In every run the broadcasts of a round plus the recirculated packets that will broadcast it are 1 if all n workers have contributed to the round, and 0 otherwise |
| Runs.CompleteRounds | dev_root/p4/workers_counter.p4:27-39 | The rounds to which every worker's contribution has been added once are exactly the first m |
| Runs.FateOfDuplicates | dev_root/controller/next_step_selector.py:125-137 | A copy of an added packet changes no register; it is answered with the stored sum if its round is complete, dropped at HARVEST7 if one contribution is missing, so that it reads count 1, and dropped at once otherwise |
| Protocol.StepKeepsInv | dev_root/client_lib/src/backends/rdma/rdma_worker_thread.cc:198-294 | Every step of a worker, a channel or the switch keeps the invariant that relates both sets of a slot, the workers, the channels, the recirculated packets and the replies |
| Protocol.InitInv | dev_root/client_lib/src/backends/rdma/rdma_worker_thread.cc:185-192 | The state in which every worker has posted its first message and the registers are cleared satisfies the invariant |
| Protocol.ConsumeFresh | dev_root/p4/switchml.p4:124-183 | A worker's first copy of the round in progress enters the bitmap, leaves the other set, counts down, and adds to or overwrites the sum; it carries flag 1 exactly if it completes the round |
| Protocol.ConsumeSeen | dev_root/p4/switchml.p4:124-183 | A copy of a message the switch already has changes no register and carries flag 0 exactly if its round is complete |
| Protocol.HeadIsFreshOrSeen | dev_root/client_lib/src/backends/rdma/rdma_worker_thread.cc:333-372 | The oldest packet of a channel is the worker's first copy of the round in progress, or a copy of a message whose bit is set: nothing older can reach the switch |
| Protocol.RoundsAreIds | dev_root/client_lib/src/backends/rdma/rdma_worker_thread.cc:246-254 | A message id is below the total exactly if its round is among the queue pair's rounds |
| Aggregates.AggregateInsert | dev_root/p4/processor.p4:48-54 | Adding one more worker's packet to the aggregate of a set gives the aggregate of the larger set, in whatever order packets arrive |
| Aggregates.AggregateSingle | dev_root/p4/processor.p4:35-41 | Overwriting the registers with the first packet gives the aggregate of that worker alone |
| Liveness.NoStuckState | dev_root/controller/next_step_selector.py:75-83 | From every reachable state a finite loss-free continuation leads to a state in which every worker has every result |
| Liveness.AdvanceOne | dev_root/controller/next_step_selector.py:125-137 | From every reachable state with an unfinished worker a loss-free continuation decreases the number of results still to be accepted |
| Liveness.Serve | dev_root/controller/next_step_selector.py:80-81 | A worker that awaits a complete round gets it from the stored sum by sending again |
| Liveness.Fill | dev_root/controller/next_step_selector.py:78-79 | An incomplete round is completed by retransmissions of the workers that are missing in it |
| UnorderedWire.UnorderedExactlyWithinPeriod | dev_root/client_lib/src/backends/rdma/rdma_worker_thread.cc:221-247 | With arbitrarily reordered replies, comparing 16 bits of the id never accepts a stale reply if and only if the queue pair's rounds do not exceed the period of its short ids |
| UnorderedWire.DistinctIffWithinPeriod | dev_root/client_lib/src/backends/rdma/rdma_worker_thread.cc:345 | A queue pair's short ids are distinct if and only if it has at most 65536 / gcd(batch, 65536) rounds |
| UnorderedWire.StaleReplyAccepted | dev_root/client_lib/src/backends/rdma/rdma_worker_thread.cc:223-247 | Beyond the period there is a run in which a worker accepts the result of an old round for a new one |
| FifoWire.FifoSafe | dev_root/client_lib/src/backends/rdma/rdma_worker_thread.cc:221-247 | With ordered replies and atomic passes, every result accepted by the 16-bit comparison is that of its round, for slices of any length; the batch must not be a multiple of 65536, and it is at most the number of queue pairs |
| FifoWire.RepliesToldApart | dev_root/client_lib/src/backends/rdma/rdma_worker_thread.cc:223-239 | While a worker awaits round r its queue holds copies of round r-1 and then of round r, and the comparison accepts exactly the latter |
| FifoWire.SimulateStep | dev_root/client_lib/src/backends/rdma/rdma_worker_thread.cc:198-260 | Every step over the wire is a run of the exact protocol |
| FifoLiveness.FifoNoStuckState | dev_root/client_lib/src/backends/rdma/rdma_worker_thread.cc:198-294 | With ordered replies and the 16-bit comparison, from every reachable state a loss-free continuation gives every worker the result of every round, for slices of any length |
| FifoLiveness.FifoServe | dev_root/client_lib/src/backends/rdma/rdma_worker_thread.cc:223-254 | A worker that awaits a complete round sends again, drops older replies and takes the one it awaits |
| SwitchPipeline.Pipeline.IngressConsume | dev_root/p4/switchml.p4:124-183 | The bitmap, counter, exponent, value and next-step stages on a CONSUME0 packet do to its slot what Slots.Consume says and to no other slot anything; the decision is that of Slots.AfterConsume |
| SwitchPipeline.Pipeline.IngressHarvest | dev_root/p4/switchml.p4:136-183 | A HARVEST7 packet changes no register, reads the first half of the sum and the second exponent, and takes the decision of Slots.AfterHarvest |
| SwitchPipeline.Pipeline.UpdateAndCheckWorkerBitmap | dev_root/p4/bitmap_checker.p4:84-123 | Sets the worker's bit in the packet's set, clears it in the other, and reports whether it was set |
| SwitchPipeline.Pipeline.CountDown | dev_root/p4/workers_counter.p4:27-39 | Returns the counter and restarts it at numWorkers - 1 from 0, or decrements it |
| SwitchPipeline.Pipeline.CountWorkers | dev_root/p4/workers_counter.p4:71-111 | Counts new packets and only reads the counter for others; with a single worker the flag is 1 for a new packet and 0 for others |
| SwitchPipeline.Pipeline.ApplyExponents | dev_root/p4/exponents.p4:82-111 | Writes, maximises or keeps both exponents of a CONSUME0 packet and reads the first; reads the second for HARVEST7 |
| SwitchPipeline.Pipeline.ConsumeAllValues | dev_root/p4/processor.p4:82-127 | The 32 instances write, add modulo 2^32 or keep both values of the packet's pool index only, and return the second halves |
| SwitchPipeline.Pipeline.HarvestAllValues | dev_root/p4/processor.p4:115-123 | The 32 instances return the first halves |
| SwitchPipeline.Pipeline.StagesAreConsume | dev_root/p4/processor.p4:96-114 | The register contents that the stages leave are the slot that Slots.Consume computes |
| SwitchPipeline.Pipeline.ClearedSlot | dev_root/p4/switchml.p4:96-101 | A slot of cleared registers is the slot from which the protocol starts |
| Bitmaps.BitOperations | dev_root/p4/bitmap_checker.p4:84-113 | Or, and-not and and of bitmaps insert, remove and test a worker of the set of workers they stand for |
| NextStepTable.NextStepSelector.Select | dev_root/controller/next_step_selector.py:75-137 | With the default entries, a 256-byte CONSUME0 packet gets the decision of Slots.AfterConsume and a HARVEST7 packet that of Slots.AfterHarvest |
| NextStepTable.NextStepSelector.Apply | dev_root/p4/next_step_selector.p4:150-176 | The action of a matching entry with the least priority number, or drop if none matches |
| NextStepTable.ConsumeDecided | dev_root/controller/next_step_selector.py:75-83 | For every flag and bitmap result the entries for 256-byte CONSUME0 packets decide as Slots.AfterConsume |
| NextStepTable.HarvestDecided | dev_root/controller/next_step_selector.py:125-137 | For every flag and bitmap result the HARVEST7 entries decide as Slots.AfterHarvest |
| NextStepTable.NextStepSelector.constructor | dev_root/controller/next_step_selector.py:62-154 | Installs the default entries of the unfolded pipeline, in order |
| RdmaWorker.RdmaWorkerThread.HandleCompletion | dev_root/client_lib/src/backends/rdma/rdma_worker_thread.cc:221-260 | A reply is accepted if and only if its 16 bits are those of the awaited id; then the queue pair takes the step Protocol.NextMessage, other queue pairs stay, and exactly one message is posted if ids remain |
| RdmaWorker.RdmaWorkerThread.PostSendWr | dev_root/client_lib/src/backends/rdma/rdma_worker_thread.cc:318-379 | A fresh send flips the set bit of the rkey, stores the short id and starts the timer; a retransmission posts the same rkey and immediate field again |
| RdmaWorker.RdmaWorkerThread.CheckTimeouts | dev_root/client_lib/src/backends/rdma/rdma_worker_thread.cc:283-293 | If a timer has expired, the message that has waited longest is posted again, as it was, and it is outstanding; no queue pair's state changes |
| RdmaWorker.RdmaWorkerThread.PostFirstBatch | dev_root/client_lib/src/backends/rdma/rdma_worker_thread.cc:185-193 | The first queue pairs each post their first message with the set bit flipped; afterwards exactly the outstanding messages have a timer and a receive request |
| RdmaWorker.RdmaWorkerThread.SetUpSlice | dev_root/client_lib/src/backends/rdma/rdma_worker_thread.cc:156-171 | Batch size, number of messages with the extra batch, and the first message id of each queue pair in use |
| RdmaWorker.RdmaWorkerThread.constructor | dev_root/client_lib/src/backends/rdma/rdma_worker_thread.cc:90-132 | Each queue pair starts with the pool index of its own first slot, cut to 16 bits, and the set bit 1 |
| RdmaWorker.AcceptedIsNextMessage | dev_root/client_lib/src/backends/rdma/rdma_worker_thread.cc:246-260 | Accepting a result keeps a queue pair valid (timer and receive request exactly while a message is outstanding, rkey within its slot) and is the worker's step of the protocol |
| RdmaWorker.PostIsPacket | dev_root/client_lib/src/backends/rdma/rdma_worker_thread.cc:333-345 | What is posted carries the set bit and the short id of the protocol's packet |
| RdmaSlices.RunJobSlice | dev_root/client_lib/src/backends/rdma/rdma_worker_thread.cc:156-294 | For any completions, duplicates included, and any timeouts, each queue pair posts its messages in order, each with the other set bit, and repeats only the last one; the loop ends by itself exactly when every queue pair has accepted one result for each of its messages, and then the worker is idle again |
| RdmaSlices.MessagesShared | dev_root/client_lib/src/backends/rdma/rdma_worker_thread.cc:161-171 | The queue pairs in use carry each message of the slice once between them |
| RdmaSlices.SliceEnds | dev_root/client_lib/src/backends/rdma/rdma_worker_thread.cc:198 | The count of received messages reaches the total if and only if no queue pair lacks a result; then no timer runs and no receive request is left |
| RdmaSlices.SomeTimerRuns | dev_root/client_lib/src/backends/rdma/rdma_worker_thread.cc:283-293 | As long as the loop runs, a timer runs for a message whose result is still missing |
| RdmaSlices.PostsArePackets | dev_root/client_lib/src/backends/rdma/rdma_worker_thread.cc:329-345 | The posts carry slot, set bit and short id of the protocol's packets, or the other set bit if the slice before ended on the other set |
| TimeoutQueues.TimeoutQueue.Push | dev_root/client_lib/src/backends/rdma/rdma_timeout_queue.cc:55-81 | Makes the index the newest of the list and keeps the order of the others, unless some listed timestamp is newer, which is the fatal case and changes nothing |
| TimeoutQueues.TimeoutQueue.Remove | dev_root/client_lib/src/backends/rdma/rdma_timeout_queue.cc:83-114 | Takes exactly this index off the list and keeps all links consistent |
| TimeoutQueues.TimeoutQueue.Check | dev_root/client_lib/src/backends/rdma/rdma_timeout_queue.cc:116-135 | Returns -1 if and only if no listed entry has expired, and otherwise the oldest listed entry |
| TimeoutQueues.TimeoutQueue.Ledger | dev_root/client_lib/src/backends/rdma/rdma_timeout_queue.cc:122-129 | In every state: timeout, threshold, counter and the number of reports satisfy the backoff ledger for some number k of doublings |
| TimeoutQueues.BackoffLedger | dev_root/client_lib/src/backends/rdma/rdma_timeout_queue.cc:122-129 | After n reports there have been the largest k doublings that n reports pay for: timeout T*2^k, threshold h + k*inc, counter n - (k*(h+1) + inc*k*(k-1)/2), within the threshold |
| TimeoutQueues.TriangleClosed | dev_root/client_lib/src/backends/rdma/rdma_timeout_queue.cc:128 | The increments that k doublings have accumulated are k*(k-1)/2 |
| TimeoutQueues.LinksSpellOneList | dev_root/client_lib/src/backends/rdma/rdma_timeout_queue.cc:83-107 | Following next-links from the head and previous-links from the tail spells the order and its reverse, and both end |
| TimeoutQueues.LinksDetermineOrder | dev_root/client_lib/src/backends/rdma/rdma_timeout_queue.cc:55-114 | The links determine the order of the list |
| TimeoutQueues.ValidIffListed | dev_root/client_lib/src/backends/rdma/rdma_timeout_queue.cc:109-112 | The valid entries are exactly those on the list |
| TimeoutQueues.ExpiryShowsAtTheTail | dev_root/client_lib/src/backends/rdma/rdma_timeout_queue.cc:117-121 | Some listed entry has expired if and only if the last one has, in truncated milliseconds |
| RdmaReceiver.TracksMessages | dev_root/p4/rdma_receiver.p4:60-116 | For every order-preserving lossy delivery from the first packet of a message on, with fewer than 2^24 losses in a row, a packet is unflagged if and only if all earlier packets of its message were delivered, and then its pool index is the rkey plus 2 per packet, across the 24-bit wrap-around |
| RdmaReceiver.LongLossConfuses | dev_root/p4/rdma_receiver.p4:84-98 | With 2^24 losses in a row a packet of another message passes unflagged |
| RdmaReceiver.Receiver.ReceivePacket | dev_root/p4/rdma_receiver.p4:229-279 | The reset and the increment action on the queue pair's register, and the error bit as the sequence violation |
| QpRouting.RoutedToItsQueuePair | dev_root/controller/rdma_sender.py:151-171 | For every power of two of packets per message and every number of queue pairs that the 15-bit pool index has room for, a pool index of queue pair i matches the entry of queue pair i and no other |
| QpRouting.DistinctRegisters | dev_root/client_lib/src/backends/rdma/rdma_worker_thread.cc:121-128 | Different queue pairs, packets and sets have different pool indices |
| QpRouting.PowerOfTwoTest | dev_root/controller/rdma_sender.py:140-145 | p & (p - 1) is 0 if and only if the positive number p is a power of two |
| QpRouting.AddRdmaWorker | dev_root/controller/rdma_sender.py:138-177 | Installs the entry of every queue pair, or fails if and only if the packets per message are not a power of two |
| Quantizer.SwitchSumIsExact | dev_root/client_lib/src/prepostprocessors/cpu_exponent_quantizer_ppp.cc:101-103 | For up to 32 workers and a global exponent in [-96, 122], whichever workers have been added, the 32-bit register holds exactly the sum of their signed quantized values, which is short of INT32_MAX in magnitude |
| Quantizer.QuantizedBound | dev_root/client_lib/src/prepostprocessors/cpu_exponent_quantizer_ppp.cc:256-258 | n times any quantized value stays strictly between -INT32_MAX and INT32_MAX, for factor and product rounded to float32 |
| Quantizer.FactorIsScaled | dev_root/client_lib/src/prepostprocessors/cpu_exponent_quantizer_ppp.cc:257-258 | The doubly rounded factor for exponent e is the one for exponent 0 times 2^-e |
| Quantizer.BaseFactorForm | dev_root/client_lib/src/prepostprocessors/cpu_exponent_quantizer_ppp.cc:257-258 | The factor for exponent 0 is a 24-bit multiple of a power of two, and one unit less in its last place is below a worker's share of INT32_MAX |
| Quantizer.PacketExponentCovers | dev_root/client_lib/src/prepostprocessors/cpu_exponent_quantizer_ppp.cc:149-154 | The exponent extracted from the largest magnitude v satisfies v < 2^e if and only if v < 2^127, and is the least one for normal v |
| Quantizer.GlobalExponentCovers | dev_root/p4/exponents.p4:48-54 | An exponent at least as large as the one a worker sent covers every value of that worker's packet |
| Quantizer.ExactArithmeticOverflows | dev_root/client_lib/src/prepostprocessors/cpu_exponent_quantizer_ppp.cc:103 | Without float rounding four workers' values could add up to more than INT32_MAX |
| Floats.RoundAtMost | dev_root/client_lib/src/prepostprocessors/cpu_exponent_quantizer_ppp.cc:103 | Anything less than half a unit above a full-precision number rounds to that number or below |
| Floats.RoundScaled | dev_root/client_lib/src/prepostprocessors/cpu_exponent_quantizer_ppp.cc:258 | Rounding commutes with scaling by powers of two above the underflow threshold |
| Floats.LargestBelow | dev_root/client_lib/src/prepostprocessors/cpu_exponent_quantizer_ppp.cc:151-153 | A float below 2^e is at most 2^e - 2^(e-p) |
| DummyAllReduce.DummyWorkerThread.AllReduce | dev_root/client_lib/src/backends/dummy/dummy_worker_thread.cc:89-177 | For every burst size and receive order every packet is sent and received at most once; when all are received, each was sent and received once and the whole output is the reduction of the original input, in place or not |
| DummyAllReduce.DummyWorkerThread.EveryInteger | dev_root/client_lib/src/backends/dummy/dummy_backend.cc:72-84 | For INT32 jobs every output element is n times the input element, modulo 2^32 |
| DummyAllReduce.DummyWorkerThread.EveryFloat | dev_root/client_lib/src/prepostprocessors/cpu_exponent_quantizer_ppp.cc:194-260 | For FLOAT32 jobs every output element is dequantized from n times its quantized value, with the factor of its own block's exponent |
| DummyAllReduce.DummyWorkerThread.PreprocessSingle | dev_root/client_lib/src/prepostprocessors/cpu_exponent_quantizer_ppp.cc:69-192 | Fills the packet's slot with its block in network byte order and the exponent of the block one batch ahead; other slots stay |
| DummyAllReduce.DummyWorkerThread.PostprocessSingle | dev_root/client_lib/src/prepostprocessors/cpu_exponent_quantizer_ppp.cc:194-299 | Writes the packet's block to the output and the factor of the block one batch ahead, and nothing else |
| DummyAllReduce.DummyWorkerThread.CreatePacket | dev_root/client_lib/src/backends/dummy/dummy_worker_thread.cc:159-165 | What a packet that may be created loads is the unmodified original with its factor already in place, even if the tensors are one; other slots stay |
| DummyAllReduce.DummyWorkerThread.HandlePacket | dev_root/client_lib/src/backends/dummy/dummy_worker_thread.cc:144-166 | A received packet's block becomes reduced, and its successor, if any, takes over its slot |
| DummyAllReduce.DummyWorkerThread.ReceiveBurst | dev_root/client_lib/src/backends/dummy/dummy_backend.cc:97-123 | Any number of pending packets in any order are multiplied and handed over, the others stay pending; the non-empty check is a precondition |
| DummyAllReduce.DummyWorkerThread.Receive | dev_root/client_lib/src/backends/dummy/dummy_backend.cc:99-100 | As long as not all packets have been received something is pending, so the check of ReceiveBurst never fails |
| DummyAllReduce.DummyWorkerThread.SendBurst | dev_root/client_lib/src/backends/dummy/dummy_backend.cc:86-95 | Appends the packets to the pending ones |
| DummyAllReduce.DummyWorkerThread.ProcessPacket | dev_root/client_lib/src/backends/dummy/dummy_backend.cc:72-84 | Multiplies the entries of the packet's slot in host byte order, and no others |
| DummyAllReduce.FlyingAdvances | dev_root/client_lib/src/backends/dummy/dummy_worker_thread.cc:150-160 | Replacing a received packet by its successor keeps the packets in flight the next ones of their chains, no two in one slot |
| DummyAllReduce.SlotIsRemainder | dev_root/client_lib/src/backends/dummy/dummy_worker_thread.cc:160-161 | The slot of a packet id is its remainder by the batch size |
| DummyAllReduce.AllDone | dev_root/client_lib/src/backends/dummy/dummy_worker_thread.cc:126 | As many packets are done as there are if and only if nothing is in flight |
| AllReduceJobs.ByteSwapTwice | dev_root/client_lib/src/backends/dummy/dummy_backend.cc:32 | Swapping the bytes of a word twice gives the word back |
| AllReduceJobs.RoundUp | dev_root/client_lib/src/prepostprocessors/cpu_exponent_quantizer_ppp.cc:56-57 | The rounded-up quotient counts exactly the units that start within the tensor |
| FloatJobs.FloatResult | dev_root/client_lib/src/prepostprocessors/cpu_exponent_quantizer_ppp.cc:239-241 | For ordinary floats the multiplication by the number of workers does not overflow, and the result is n*q divided by the factor with which q was quantized |
| FloatJobs.FindLargest | dev_root/client_lib/src/prepostprocessors/cpu_exponent_quantizer_ppp.cc:127-146 | The loop computes the largest magnitude of the packet |
| Accuracy.AcceptedIsAccurate | dev_root/client_lib/src/prepostprocessors/cpu_exponent_quantizer_ppp.cc:239-258 | In every run of the protocol in which a lane carries the workers' floats quantized for an exponent e in [-96, 122] that covers them, what any worker dequantizes from an accepted result differs from the true sum by less than n * 2^(e-21) |
| Accuracy.MultipleIsAccurate | dev_root/client_lib/src/prepostprocessors/cpu_exponent_quantizer_ppp.cc:239-241 | What the dummy all-reduce returns for a float x differs from n * x by less than n * 2^(e-21) |
| Accuracy.ErrorBelowLargest | dev_root/client_lib/src/prepostprocessors/cpu_exponent_quantizer_ppp.cc:149-153 | If e is the exponent sent for the normal number v, that error is at most n * v / 2^20 |
| Accuracy.QuantizeError | dev_root/client_lib/src/prepostprocessors/cpu_exponent_quantizer_ppp.cc:103 | A quantized value is within 1/2 plus half a unit in the last place of the product of value and factor |
| Accuracy.RoundError | dev_root/client_lib/src/prepostprocessors/cpu_exponent_quantizer_ppp.cc:103 | Rounding a number below 2^k to p bits moves it by at most 2^(k-p-1) |
| FloatTensors.TensorsSummed | dev_root/client_lib/src/prepostprocessors/cpu_exponent_quantizer_ppp.cc:54-260 | In every run, for tensors of float blocks: once a worker has accepted message b + 1, each element of block b, dequantized with the exponent that came with message b, differs from the true sum of all workers' elements by less than n * 2^(e-21), where e is the largest exponent sent for these blocks |
| FloatTensors.SendsWhatItComputes | dev_root/client_lib/src/backends/rdma/rdma_worker_thread.cc:345-358 | In every run, the next message that a worker computes from its tensor and the results it has accepted is the contribution on which the aggregation theorems rest |
| FloatTensors.AcceptedExponent | dev_root/p4/exponents.p4:48-54 | In every run the exponent that comes back with message r is the largest one of all workers' blocks r |
| FloatTensors.ExponentCovers | dev_root/client_lib/src/prepostprocessors/cpu_exponent_quantizer_ppp.cc:149-154 | That exponent covers every value of every worker's block r |
| FloatTensors.ExponentIsSent | dev_root/client_lib/src/prepostprocessors/cpu_exponent_quantizer_ppp.cc:149-154 | And it is the exponent some worker sent |
| FloatTensors.BlockCarried | dev_root/client_lib/src/prepostprocessors/cpu_exponent_quantizer_ppp.cc:69-103 | Message b + 1 carries block b, quantized for the exponent of block b |
| FloatTensors.ExtraRound | dev_root/client_lib/src/backends/rdma/rdma_worker_thread.cc:165-167 | The extra batch adds exactly one message to every queue pair |
| FloatTensors.TensorsGetSummed | dev_root/client_lib/src/prepostprocessors/cpu_exponent_quantizer_ppp.cc:54-260 | From every reachable state a loss-free continuation leaves every worker with its whole tensor summed |
| SchedulerRuns.OneSliceOfEachJob | dev_root/client_lib/src/schedulers/fifo_scheduler.cc:52-116 | In every interleaving without a stop every thread is given its own slice of each job, in FIFO order, once, and no thread is more than one job ahead |
| SchedulerRuns.SlicesTile | dev_root/client_lib/src/schedulers/fifo_scheduler.cc:92-109 | The T slices of a job follow one another from 0 to numel and differ by at most one element |
| SchedulerRuns.BarrierSafety | dev_root/client_lib/src/utils.cc:43-66 | In every interleaving a waiting thread may leave if and only if all threads have arrived as often as it has; arrivals and slices alternate, so a generation serves one job |
| SchedulerRuns.ReportedInOrder | dev_root/client_lib/src/schedulers/fifo_scheduler.cc:118-132 | Jobs are found finished in FIFO order, each once, and exactly those of which every thread has notified its slice |
| SchedulerRuns.CounterAtRest | dev_root/client_lib/src/context.cc:144-149 | With no notification under way the counter is the number of submitted jobs minus the number of finished ones |
| SchedulerRuns.NoCurrentJobs | dev_root/client_lib/src/context.cc:166-172 | When the counter is 0, every job submitted so far has the status FINISHED |
| SchedulerRuns.StatusesOnlyGrow | dev_root/client_lib/src/job.cc:49-57 | In every interleaving, stops included, no status is lowered and no job id is missing in a map |
| SchedulerRuns.BarrierCheckFires | dev_root/client_lib/src/schedulers/fifo_scheduler.cc:52-64 | From a state in which the scheduler is stopped, some continuation makes the barrier's fatal check fire if and only if in that state some thread is between the first check of GetJobSlice and the barrier |
| SchedulerRuns.MayComeTooLate | dev_root/client_lib/src/schedulers/fifo_scheduler.cc:134-137 | For every number of threads there is a run in which the check fires |
| SchedulerRuns.StepKeepsInv | dev_root/client_lib/src/schedulers/fifo_scheduler.cc:40-132 | Every step keeps the invariant on threads, barrier, queue, maps, statuses and counter |
| SchedulerRuns.StopSchedulerKeeps | dev_root/client_lib/src/scheduler.cc:46-51 | Stopping leaves every job that is about to be reported running, out of the queue, and with no other thread |
| SchedulerProgress.EveryScheduleEnds | dev_root/client_lib/src/schedulers/fifo_scheduler.cc:52-132 | From every reachable state, whatever the threads do without new jobs and stops, at most a fixed number of steps is possible |
| SchedulerProgress.StuckOnlyWhenFinished | dev_root/client_lib/src/utils.cc:43-66 | When no thread can do anything and nothing is to be enqueued, every submitted job is FINISHED and the counter is 0: no deadlock at the barrier or at the queue |
| SchedulerProgress.AllJobsFinish | dev_root/client_lib/src/context.cc:166-197 | So from every reachable state a continuation without new jobs finishes all submitted jobs |
| SchedulerObjects.FifoScheduler.EnqueueJob | dev_root/client_lib/src/schedulers/fifo_scheduler.cc:40-50 | Is the step Enqueued, and queues the job |
| SchedulerObjects.FifoScheduler.TakeSlice | dev_root/client_lib/src/schedulers/fifo_scheduler.cc:67-115 | Is the step Dispatched on the oldest job, gives this thread's slice of it and sets it running; after a stop nothing changes |
| SchedulerObjects.FifoScheduler.NotifyJobSliceCompletion | dev_root/client_lib/src/schedulers/fifo_scheduler.cc:118-132 | Is the step Notified; after a stop the job fails |
| SchedulerObjects.FifoScheduler.StopFifo | dev_root/client_lib/src/schedulers/fifo_scheduler.cc:134-146 | Every queued job fails, queue and maps are empty, and the barrier is destroyed |
| SchedulerObjects.ThreadBarrier.Arrive | dev_root/client_lib/src/utils.cc:43-65 | Is the step Arrived; coming to a destroyed barrier fails and changes nothing |
| SchedulerObjects.Job.SetJobStatus | dev_root/client_lib/src/job.cc:49-57 | Sets the status if it is not lower than the current one, and fails otherwise |
| DpdkSlots.DisciplineNeedsSize | dev_root/client_lib/src/backends/dpdk/dpdk_worker_thread.cc:346-363 | In every order of acceptance each packet finds the previous packet of its slot accepted, if and only if the job has at least as many main packets as slots or fits into the slots altogether |
| DpdkSlots.SlotFreeAcrossJobs | dev_root/client_lib/src/backends/dpdk/dpdk_worker_thread.cc:392 | Across jobs, when a packet has been sent the previous use of its slot has been accepted and was in the other set |
| DpdkSlots.PoolIndexOfUse | dev_root/client_lib/src/backends/dpdk/dpdk_worker_thread_utils.inc:41-52 | The pool index of a packet is the slot and set of its number counted through all jobs |
| DpdkSlots.UsesAlternate | dev_root/client_lib/src/backends/dpdk/dpdk_worker_thread_utils.inc:44-51 | Uses of a slot are max_outstanding_pkts apart and alternate between the sets |
| DpdkSlots.ThreadsApart | dev_root/client_lib/src/backends/dpdk/dpdk_worker_thread.cc:93-94 | Different threads use different pool indices |
| DpdkSlots.PoolIndexReturns | dev_root/p4/udp_sender.p4:64 | Every pool index of the switch survives the way to the header and back |
| DpdkSlots.HeaderReturns | dev_root/p4/udp_receiver.p4:76 | A header's pool index survives the way to the switch and back if and only if its bit 14 is clear |
| DpdkSlots.SwitchSeesUse | dev_root/p4/udp_receiver.p4:76 | On the switch the upper bits of the pool index are the worker's slot and the lowest is the set of the use |
| DpdkSlots.DpdkWorkerThread.BeginJob | dev_root/client_lib/src/backends/dpdk/dpdk_worker_thread.cc:184-255 | Sends the first batch, each packet on the pool index of its id |
| DpdkSlots.DpdkWorkerThread.HandlePacket | dev_root/client_lib/src/backends/dpdk/dpdk_worker_thread.cc:313-364 | A packet is accepted, and its successor sent, if and only if it is not marked as received and its 8 bits of job id are those of the current job; otherwise nothing changes. The state stays right if and only if what is accepted had been sent for this job |
| DpdkSlots.EarlierJobIgnored | dev_root/client_lib/src/backends/dpdk/dpdk_worker_thread.cc:325 | While a packet of the current job is missing, copies of an earlier job's packets are all ignored if and only if the two ids do not differ by a multiple of 256 |
| DpdkSlots.DpdkWorkerThread.EndJob | dev_root/client_lib/src/backends/dpdk/dpdk_worker_thread.cc:391-392 | The shift continues where the job ended |
| DpdkSlots.DpdkWorkerThread.SlotsWereFree | dev_root/client_lib/src/backends/dpdk/dpdk_worker_thread.cc:274-385 | In every state of the worker, whatever has been sent for a job whose size fits went to a free slot |

## Left out

- The 1024-byte path over four pipes (CONSUME1 to CONSUME3, HARVEST0 to HARVEST6) and messages of several packets; the model is that of 256-byte single-packet messages.
- The two drop simulators (dev_root/p4/switchml.p4:109-113, dev_root/p4/bitmap_checker.p4:140), and loss of recirculated packets, which the switch does not drop.
- RDMA buffers shared by sends and receives: a retransmission carries the original payload.
- RdmaSlices.RunJobSlice: completions of sends and failed completions are not modelled, results are taken as they come, and the context leaves the running state after an arbitrary number of turns.
- RDMA message ids across job slices: the protocol is proved within one slice.
- The DPDK timer callback, and lossy delivery for the DPDK worker; retransmission is modelled for the RDMA worker.
- DpdkSlots.DpdkWorkerThread.HandlePacket: requires the packet id to be within the current job; the program reads its bitmap before it checks the job.
- FloatTensors.TensorsSummed: is stated for messages of one packet of at most 64 elements, and for blocks whose largest exponent is in [-96, 122]; outside, the factor may underflow or overflow.
- SchedulerRuns.BarrierSafety: is stated for runs without a stop, because a stop releases waiting threads by destroying the barrier.
- The start and the rest of the stop of the context, and job creation apart from counting: creating a job and counting it is one step.
- Quantizer.QuantizedBound: exponents outside [-96, 122], infinities, NaNs and the conversion of negative floats to unsigned in htonl are not modelled; a negative value is taken to become its two's complement.
- DummyAllReduce.DummyWorkerThread.AllReduce: models one job slice with packet processing on; random choices of the backend are arbitrary choices, sleeping and statistics are left out, and the context leaves the running state after an arbitrary number of turns.
- TimeoutQueues.BackoffLedger: the counters are unbounded integers.
- RdmaReceiver.TracksMessages: the rkey plus 2 per packet is assumed to stay below 2^15.
- Headers, parsers, deparsers, ARP and ICMP, ports, gRPC, the command line, NCCL and PyTorch plugins, benchmarks, statistics and logging.
