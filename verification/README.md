# Verified models of the Eltex practice programs

Seven C programs of this repository contain an algorithm or a protocol rather than mere input and output.
This Dafny project models them and proves what they are for. Code that changes data in place is modelled in
place, on heap objects and arrays; processes that interleave are modelled as transition systems whose steps are
single C statements, over all schedules.

| program | files |
|---|---|
| AVL contact tree (`module2/4/4.3`) | `Contacts`, `AvlModel` (the algorithm on values), `AvlTheorems` (runs, search cost), `AvlTree` (the pointer code) |
| shared-memory block pool (`module3/5`) | `BlockPool` (the statements), `BlockPoolSafety` (invariant), `BlockPoolRuns` (any processes), `BlockPoolSingle` (one producer), `BlockPoolFinish` (how it ends), `BlockPoolDraws` (what is in the blocks) |
| file transfer over a pipe (`module3/1`) | `FileTransfer` (both ends and the pipes), `FileTransferProof` |
| publish/subscribe broker (`module3/2`) | `Commands` (text formats), `Subscriptions` (the table on values), `Broker` (the process), `PubSub` (the system) |
| taxi dispatcher (`module3/Cross-task/2`) | `Taxi` (the statements), `TaxiDriver` (one driver), `TaxiSystem` (CLI and drivers), `TaxiStatus` (what `get_status` prints), `TaxiCommands` (which driver a command reaches) |
| raw-socket echo server (`module3/Cross-task/1`) | `EchoPackets` (packets), `EchoServer` (the slot table), `EchoHistory` (runs) |
| contact list and priority queue (`module2/4/4.1`, `module2/4/4.2`) | `Lists` (sequences with one element more or less), `ContactList`, `ListRuns`, `PriorityQueue`, `QueueRuns` |

`Text` holds what the programs use of `<string.h>` and `<stdio.h>`: `strcmp`, `%d`/`%ld` printing and the `sscanf`
conversions.

How the results are stated:

- The AVL tree is written twice: `AvlTree` changes heap nodes as the C code does, `AvlModel` computes on values,
  and every method of the former is proved equal to a function of the latter. The promises (order, exact heights,
  balance, contents as a map, logarithmic search) are then proved of the functions. `AvlTree.Owns` is the ownership
  of nodes: no sharing, no cycles, every field as the shape says. The lists of `ContactList` and `PriorityQueue`
  work the same way, with the ghost sequence `nodes` as the footprint.
- In the transition systems `Step` is total and deterministic given a choice of who moves (and, where needed, a
  random number, an amount of bytes, or a client's request), and `Run` folds it over a schedule. The results hold
  for every schedule. Where a state contains a history (`log`, `issued`, `answers`, `lines`), it is a record of what
  happened that no step acts on.
- Where the code falls short of what one would expect, the exact condition is proved, with a run or an input that
  shows it:
  - The broker's arrays overflow exactly beyond 50 processes or 10 subscribes each, even if topics were unsubscribed
    in between (`Broker.OverflowIsExact`, `Broker.EleventhSubscribeOverflows`); the runs of the whole system that the
    arrays allow are exactly those within that capacity (`PubSub.RunsWithRoom`).
  - `get_status` reads `busy` and then `remaining`. It prints "Busy 0" exactly when, at the second read, the driver is
    between marking itself busy and storing the timer, or has cleared the slot after a task; otherwise it prints the
    timer of the latest task, which is another than the one it saw busy exactly when another has been started since.
    When no reply has timed out there is no other task, and 0 means that the task seen has been completed
    (`TaxiStatus.StatusPrintsTask`, with runs in `BusyZeroAtStart`, `BusyZeroAtEnd` and `LaterTaskPrinted`).
  - A reply of the echo server fits an IPv4 packet exactly when its data and digits are at most 65506 bytes
    (`EchoPackets.ReplyFitsPacket`, `EchoPackets.LongestIsAnsweredTooLong`). A message whose reply does not is counted
    all the same, so a client sees the numbers 1, ..., k without a gap exactly when all its messages are that short
    (`EchoHistory.NumbersThatGoOut`, `EchoHistory.GapIsReachable`).
  - What the echo server makes of a packet depends on the received bytes alone exactly when the packet does not end
    inside the ports of its UDP header (`EchoPackets.ReadIsDetermined`, `EchoPackets.StalePort`).
  - The file transfer can copy all files that can be opened exactly when their names are not empty, have no white
    space and are shorter than 256 bytes (`FileTransferProof.CopiesExactly`).
  - A producer of the block pool that is alone never ends with ten blocks or fewer; otherwise every run with one
    producer can be brought to its end (`BlockPoolFinish.CanFinishExactly`).

The pool has any number N > 0 of blocks instead of 50; the other constants are those of the programs.

## Model

| member | source | states |
|---|---|---|
| Contacts.CompareZero | module2/4/4.3/main.c:40-44 | two contacts compare equal exactly when surname and name are equal |
| Contacts.CompareAntisymmetric | module2/4/4.3/main.c:40-44 | swapping the arguments negates the comparison |
| Contacts.CompareTransitive | module2/4/4.3/main.c:40-44 | the comparison is transitive, strictly so if one of the steps is strict |
| Contacts.CompareIsOrder | module2/4/4.3/main.c:40-44 | negative exactly when the surname comes first in byte order, or the surnames are equal and the name does; zero exactly when both are equal; byte order is defined by the first byte that differs |
| Text.StrCmpIsBefore | module2/4/4.3/main.c:41-43 | `strcmp` is negative exactly when the strings first differ where the left one ends or has the smaller byte |
| Contacts.KeyIs | module2/4/4.3/main.c:118-121 | the key of a contact is its surname and its name, in that order |
| AvlModel.BalanceRestores | module2/4/4.3/main.c:74-95 | if both subtrees are AVL and differ in height by at most 2, `balance` gives an AVL tree with the same in-order sequence and height max or max + 1, and max + 1 if it had nothing to repair |
| AvlModel.InsertBalanced | module2/4/4.3/main.c:97-114 | inserting keeps the balance and grows the height by at most 1 |
| AvlModel.InsertInOrder | module2/4/4.3/main.c:97-114 | the in-order sequence after an insert is the old one with the contact at its place, or unchanged if the key is there |
| AvlModel.DeleteBalanced | module2/4/4.3/main.c:132-157 | deleting keeps the balance and lowers the height by at most 1 |
| AvlModel.DeleteInOrder | module2/4/4.3/main.c:132-157 | the in-order sequence after a delete is the old one without the contact of that key, in the leaf, one-child and successor cases |
| AvlTheorems.InsertCorrect | module2/4/4.3/main.c:97-114 | inserting into an AVL tree gives an AVL tree whose map has the new key, or is the old map if the key was there |
| AvlTheorems.DeleteCorrect | module2/4/4.3/main.c:127-157 | deleting any key from any AVL tree gives an AVL tree whose map is the old one minus that key and nothing else |
| AvlTheorems.FindCorrect | module2/4/4.3/main.c:116-125 | searching agrees with the map for every key, present or not |
| AvlTheorems.RunIsAvlMap | module2/4/4.3/main.c:97-157 | after any sequence of inserts and deletes from the empty tree the tree is AVL and its contents are those of the same operations on a finite map that keeps the first contact of a key |
| AvlTheorems.RunCorrect | module2/4/4.3/main.c:97-165 | over any run the walk goes strictly up by surname and then name and lists exactly the contacts of the reference map, and every search gives what the map gives |
| AvlTheorems.SizeAtLeastFib | module2/4/4.3/main.c:46-95 | a balanced tree of height h has at least Fib(h + 2) - 1 contacts |
| AvlTheorems.ComparisonsAreFew | module2/4/4.3/main.c:46-125 | in every AVL tree of n contacts, Fib(height + 2) <= n + 1 and 2^(c / 2) <= n + 1 for the number c of comparisons of any search |
| AvlTheorems.SearchIsLogarithmic | module2/4/4.3/main.c:46-125 | so it is in every reachable tree, n being the number of contacts in the reference map |
| AvlTree.RotateRightNode | module2/4/4.3/main.c:54-62 | on the heap: the same nodes, relinked into the right rotation of the tree, heights recomputed, no sharing introduced |
| AvlTree.RotateLeftNode | module2/4/4.3/main.c:64-72 | the same for the left rotation |
| AvlTree.LowerLeft | module2/4/4.3/main.c:78-85 | the branch for a left subtree that is too high: one or two rotations in place |
| AvlTree.LowerRight | module2/4/4.3/main.c:86-93 | the branch for a right subtree that is too high |
| AvlTree.BalanceNode | module2/4/4.3/main.c:74-95 | `balance` on the heap gives the balanced tree over the same nodes; null stays null |
| AvlTree.InsertNode | module2/4/4.3/main.c:97-114 | `insert_node` on the heap gives the inserted tree, with no other nodes than the old ones and new ones; in an ordered tree exactly one new node, or none if the key is there |
| AvlTree.FindNode | module2/4/4.3/main.c:116-125 | the node returned is in the tree and has the key and the data the tree has for it; null exactly when it has none; the calls of `compare_contact` are counted as they are made |
| AvlTree.FindMin | module2/4/4.3/main.c:127-130 | the loop ends at a node of the tree that holds its first contact in order |
| AvlTree.DeleteNode | module2/4/4.3/main.c:132-157 | `delete_node` on the heap gives the tree without the key, over a subset of the old nodes; in an ordered tree exactly one node leaves, or none if the key is missing |
| AvlTree.DeleteHere | module2/4/4.3/main.c:140-155 | the node with the key: freed, overwritten by its only child, or given its successor's data, which is then deleted below; in an ordered tree exactly one node leaves |
| AvlTree.Walk | module2/4/4.3/main.c:159-165 | the walk lists the in-order sequence of the tree |
| AvlTree.ContactTree.Add | module2/4/4.3/main.c:97-114 | the program's tree stays a valid AVL tree, the map gains the contact and the tree one node unless its key is there, the height grows by at most 1 |
| AvlTree.ContactTree.Remove | module2/4/4.3/main.c:127-157 | the program's tree stays a valid AVL tree, the map loses exactly the key and the tree exactly one node if it was there, the height drops by at most 1 |
| AvlTree.ContactTree.Search | module2/4/4.3/main.c:116-125 | null exactly when the map lacks the key, otherwise a node of the tree with the map's contact, after at most about 2 log2(n + 1) comparisons |
| AvlTree.ContactTree.List | module2/4/4.3/main.c:159-165 | lists exactly the contacts of the map, by surname and then by name |
| BlockPool.InitShm | module3/5/task5.c:28-37 | the loop leaves all counts 0 and all blocks chained into the free list, data untouched, semaphore 1, data list empty |
| BlockPoolSafety.ProducerKeeps | module3/5/task5.c:42-57 | every statement of a producer in its critical section keeps both lists acyclic and, with the block it holds, a partition of all blocks; keeps the counts and the conservation of contents; uses no index out of range |
| BlockPoolSafety.ConsumerKeeps | module3/5/task5.c:64-84 | the same for every statement of a consumer, including that the scan holds the extremes of what it has read |
| BlockPoolRuns.StepShape | module3/5/task5.c:39-87 | every statement of every process keeps the whole invariant, and only lines 55 and 72 change the data list, by one block at its head |
| BlockPoolRuns.MutualExclusion | module3/5/task5.c:39-87 | for any processes and any interleaving of statements: no index out of range, at most one process inside its critical section, and none exactly when the semaphore is free |
| BlockPoolRuns.PoolIsPartitioned | module3/5/task5.c:28-87 | whenever the semaphore is free, the chains from `head` and `free_head` end at -1, are acyclic and disjoint and cover all blocks, counts are 1 to 10 on one and 0 on the other; blocks published = blocks reported + blocks on the data list as multisets of contents; every Min and Max reported is the true extreme |
| BlockPoolDraws.PublishedAsDrawn | module3/5/task5.c:50-55 | over any run, the block a producer publishes holds `rand() % 10 + 1` numbers, each `rand() % 100` of one more draw, in the order drawn |
| BlockPoolRuns.SomeoneCanMove | module3/5/task5.c:39-87 | the semaphore is never lost: unless all processes have left their loops, one can make a step |
| BlockPoolSingle.ExitMeansConsumed | module3/5/task5.c:66-67 | with one producer, when any consumer has left its loop, ten blocks were published, each was reported exactly once, and the data list is empty |
| BlockPoolSingle.ExitIsFinal | module3/5/task5.c:66-67 | from then on nothing is published or reported under any schedule |
| BlockPoolSingle.WorkIsBounded | module3/5/task5.c:42-86 | with one producer the critical sections that do more than wait are at most 21 plus the number of consumers, and exactly that many when all processes have left |
| BlockPoolSingle.NeverStarved | module3/5/task5.c:44 | with one producer and more than ten blocks the producer never finds the free list empty |
| BlockPoolFinish.CanFinish | module3/5/task5.c:39-87 | with one producer and a consumer, or more than ten blocks, every reachable state can be continued until all processes have left their loops |
| BlockPoolFinish.CanFinishExactly | module3/5/task5.c:42-67 | and if and only if: a producer alone with ten blocks or fewer can never leave |
| FileTransferProof.HeaderRoundTrip | module3/1/task1.c:59-61 | for a name that is not empty, has no white space and is shorter than 256 bytes, the header fits its buffers, is one line, is not taken for the end mark, and is parsed back into the name and the size; its bytes are the name, one space, the size in decimal without leading zeros, and a newline |
| FileTransferProof.HeaderIsExact | module3/1/task1.c:25-27 | a header is parsed back into the name and the size if and only if the name is such a name |
| Text.SpaceBytes | module3/1/task1.c:27 | white space, which ends a name for `sscanf`, is the bytes 9 to 13 and 32 |
| FileTransferProof.ParentKeeps | module3/1/task1.c:46-71 | every step of the parent moves bytes from what it still has to send into the pipe, or waits for room, and changes nothing else |
| FileTransferProof.ChildMoves | module3/1/task1.c:12-44 | every step of the child, with any short read, keeps it in step with the stream, and completes at most the next file, as an exact copy |
| FileTransferProof.ChildKeeps | module3/1/task1.c:12-44 | every step of the child keeps the invariant of the whole transfer |
| FileTransferProof.ChildWritesWhatParentSent | module3/1/task1.c:12-71 | if the files that can be opened have such names, then under every schedule of writes and short reads, whatever the contents: the files written are, in order, the first openable files, named with .copy, contents unchanged; no header is misread; when the child stops at END it has written all of them and the pipe is empty |
| FileTransferProof.TransferIsBounded | module3/1/task1.c:12-71 | for such names, the steps that move either side are bounded by a measure of the files, under any schedule |
| FileTransferProof.SomeoneCanMove | module3/1/task1.c:12-71 | with any pipe of at least 1024 bytes there is no deadlock: until the child has stopped, the parent waiting for room and the child waiting for bytes never happen together |
| FileTransferProof.TransferCanFinish | module3/1/task1.c:12-71 | for such names and any pipe of at least 1024 bytes, from every reachable state the transfer can be completed, and then everything has been copied |
| FileTransferProof.CopiesExactly | module3/1/task1.c:12-71 | for any names: some run copies every file that can be opened, in order and to the last, if and only if all these files have such names |
| FileTransferProof.OpenableOf | module3/1/task1.c:50-55 | the files sent are those that can be opened, one by one and in order |
| Commands.RequestRoundTrip | module3/2/task2.c:46-106 | formatting a request and parsing the message gives the request back, also when `snprintf` cut a long text |
| Commands.PublishedFields | module3/2/task2.c:94 | split at its commas, a published message is "send", the process id in decimal, the topic, and the text: whole if the line is shorter than 512 bytes, otherwise cut so that the message is 511 bytes long |
| Commands.SubscriptionFields | module3/2/task2.c:106 | split at its commas, a subscription is its word, the process id in decimal and the topic |
| Commands.GoodTopicBytes | module3/2/task2.c:47-48 | the topics meant are those of 1 to 49 bytes without white space and comma |
| Commands.UnknownMessages | module3/2/task2.c:46-74 | exactly the messages that begin with none of the three words are ignored |
| Text.DecimalIsValue | module3/2/task2.c:94 | `%d` and `%ld` print the digits whose places add up to the number, with no leading zero |
| Text.ScanIntIsValue | module3/2/task2.c:48 | `sscanf` reads the number whose digits add up by their places, with or without a sign |
| Broker.BrokerProcess.AddTopic | module3/2/task2.c:50-56 | the array becomes the table with the topic stored for the process, in its entry or in a new one |
| Broker.BrokerProcess.RemoveTopic | module3/2/task2.c:61-69 | the nested loops overwrite every copy of the topic of that process, and nothing else, by the empty string |
| Broker.BrokerProcess.Forward | module3/2/task2.c:76-84 | appends the message once for every entry that holds the topic, in table order |
| Broker.BrokerProcess.Handle | module3/2/task2.c:43-86 | one turn of the loop changes the table and sends messages as the parsed command says; unknown messages change nothing |
| Broker.CapacityIsExact | module3/2/task2.c:17-22 | after any commands the table has one entry per process that ever subscribed, and in it one slot per subscribe |
| Broker.OverflowIsExact | module3/2/task2.c:50-56 | no write is out of bounds in a run if and only if at most 50 processes subscribe, each at most 10 times |
| Broker.EleventhSubscribeOverflows | module3/2/task2.c:48-56 | the eleventh subscribe message of any process, for any topic, is the first the broker has no room for |
| Subscriptions.SubscribeRefines | module3/2/task2.c:46-57 | with process ids unique, subscribing adds the topic to the process's set in the map the table stands for; ids stay unique |
| Subscriptions.UnsubscribeRefines | module3/2/task2.c:58-70 | unsubscribing removes the topic from the process's set, however often it was stored |
| Subscriptions.SendReachesSubscribersOnce | module3/2/task2.c:71-85 | a send goes exactly once to each process subscribed to the topic and to no other |
| PubSub.TakeEffect | module3/2/task2.c:44-85 | the message the broker takes is the oldest request not yet handled, and it does what that request asked |
| PubSub.RunInv | module3/2/task2.c:42-118 | in every reachable state the table stands for the wishes of the requests handled so far, and received + queued + about to be forwarded is exactly what each subscriber is owed, in order |
| PubSub.SubscribersReceiveWhatTheyWant | module3/2/task2.c:42-118 | in every run what a subscriber has received is a prefix of the sends handled while it was subscribed to their topic; with an idle broker and an empty queue it is all of them |
| PubSub.SubscribersReadThePosts | module3/2/task2.c:42-118 | in every run the sender, topic and text read out of what a subscriber has received are a prefix of those published on its topics while it was subscribed, texts cut as above; with nothing left to do they are all of them |
| PubSub.CanDrain | module3/2/task2.c:42-118 | from every reachable state, moves of the broker and the subscribers alone lead to an empty queue and an idle broker, with every subscriber having received all it is owed |
| PubSub.RunsWithRoom | module3/2/task2.c:43-86 | over any run of the system, the broker had room for every message it has taken if and only if, among the requests handled, at most 50 processes subscribe, each at most 10 times |
| Taxi.FindDriverSlot | module3/Cross-task/2/taxi_cli.c:50-57 | the loop returns the first active slot of the process, or -1 if there is none |
| TaxiDriver.DriverStepOk | module3/Cross-task/2/taxi_cli.c:59-142 | every statement of a driver keeps slot, timer and history in agreement; the timer is armed only while disarmed and read only once expired |
| TaxiDriver.CompletionsFollowOks | module3/Cross-task/2/taxi_cli.c:98-140 | in a history where tasks end only after being accepted, OKs = completions, plus one while a task runs |
| TaxiDriver.SlotShowsTimer | module3/Cross-task/2/taxi_cli.c:98-138 | a busy slot holds the positive timer of its task, except between lines 107 and 108, where it holds 0; a free slot holds 0, except between lines 137 and 138, where it still holds the timer of the task just done |
| TaxiSystem.StepInv | module3/Cross-task/2/taxi_cli.c:59-248 | every statement of the CLI and of every driver, and every expiry of a timer, keeps the invariant of the tables, the slots, the pipes and the histories |
| TaxiSystem.SameDriverFound | module3/Cross-task/2/taxi_cli.c:200-211 | whenever the CLI is not inside `create_driver`, `send_task` and `get_status` resolve a process id to the same index or both to none, and that index belongs to that driver |
| TaxiCommands.SendTaskReaches | module3/Cross-task/2/taxi_cli.c:199-231 | from any reachable prompt, `send_task` with the process id in slot i and a positive timer appends the timer to the commands of driver i, changes no other driver, and waits for driver i |
| TaxiCommands.SendTaskRefused | module3/Cross-task/2/taxi_cli.c:200-210 | with a process id in no slot, or an argument that is not positive, it changes nothing |
| TaxiCommands.TasksAreAnswered | module3/Cross-task/2/taxi_cli.c:199-248 | over any run without timeouts, the answers recorded for the driver of a process id are, in order, those to the `send_task` commands carried out for that process id, with their timers, but for at most one in flight; each is what became of that task |
| TaxiCommands.GetStatusReaches | module3/Cross-task/2/taxi_cli.c:250-259 | `get_status` with the process id in slot i looks at slot i |
| TaxiCommands.GetStatusUnknown | module3/Cross-task/2/taxi_cli.c:250-256 | with a process id in no slot it prints that there is no such driver |
| TaxiCommands.CreateAdds | module3/Cross-task/2/taxi_cli.c:150-197 | from any reachable prompt with fewer than 100 drivers, `create_driver` adds one idle driver with the new process id in the next slot and in `drivers_info`, and leaves the others alone |
| TaxiCommands.CreateRefused | module3/Cross-task/2/taxi_cli.c:152-155 | with 100 drivers it does nothing |
| TaxiSystem.TasksEndByTheirTimer | module3/Cross-task/2/taxi_cli.c:88-141 | in every reachable state: the timer was never read before it expired, an armed or readable timer means busy, completions <= OKs <= completions + 1, and refusals name the timer of the running task |
| TaxiSystem.StartUpErasesNothing | module3/Cross-task/2/taxi_cli.c:181-186 | the start-up writes of `busy` and `remaining` by parent and child never change the slot, in whatever order they happen |
| TaxiSystem.StatusShowsTask | module3/Cross-task/2/taxi_cli.c:98-138 | in every reachable state `remaining` holds the positive timer of the latest task if the driver is busy and past line 108, or between lines 137 and 138, and 0 otherwise |
| TaxiSystem.AnswersMatchCommands | module3/Cross-task/2/taxi_cli.c:199-248 | without reply timeouts, the answers read from a driver are exactly the outcomes of its commands, one each and in order, but for at most one still in the pipe |
| TaxiStatus.BusyIsUnfinished | module3/Cross-task/2/taxi_cli.c:98-138 | a driver is busy exactly when it has started one task more than it has completed |
| TaxiStatus.StatusSeesTask | module3/Cross-task/2/taxi_cli.c:258-263 | the first read, in any reachable state: "Available" is printed exactly when every task started has been completed; otherwise the latest task is the one seen |
| TaxiStatus.StatusPrintsTask | module3/Cross-task/2/taxi_cli.c:258-260 | the second read, in any reachable state, drivers having gone on since the first: 0 exactly between lines 107 and 108 or when the slot has been cleared, else the timer of the latest task, which is the task seen exactly when no other has been started; without timeouts no other has, and 0 is printed exactly when the task seen is completed and cleared |
| TaxiStatus.PrintedLines | module3/Cross-task/2/taxi_cli.c:250-264 | over every run each "Busy r" printed gives 0, the timer of the task seen busy or that of a later task; without timeouts never the last |
| TaxiStatus.BusyZeroIsReachable | module3/Cross-task/2/taxi_cli.c:107-108 | for any process id and timer there is a run in which a driver is busy and its slot still holds 0 |
| TaxiStatus.BusyZeroAtStart | module3/Cross-task/2/taxi_cli.c:107-108 | there is a run, with one reply timed out, that prints "Busy 0" for a task just starting |
| TaxiStatus.BusyZeroAtEnd | module3/Cross-task/2/taxi_cli.c:137-138 | there is a run, without timeouts, that prints "Busy 0" for a task completed between the two reads |
| TaxiStatus.LaterTaskPrinted | module3/Cross-task/2/taxi_cli.c:258-260 | there is a run, with one reply timed out, that prints the timer of another task than the one seen busy |
| EchoPackets.DataLengthExact | module3/Cross-task/1/raw_echo_server.c:78-79 | the subtraction in unsigned 64 bits cut to an int gives the data length, and 0 for a packet that ends inside its UDP header |
| EchoPackets.PacketRoundTrip | module3/Cross-task/1/raw_echo_server.c:60-95 | a packet laid out as RFC 791 and RFC 768 say, with any options and any old bytes behind it in the buffer, is read back as its client and data; it is dropped exactly when it is not for port 8888 and is a farewell exactly when its data is CLOSE |
| EchoPackets.ReadIsDetermined | module3/Cross-task/1/raw_echo_server.c:60-79 | what the server makes of a packet depends on the received bytes alone, whatever is left in the buffer behind them, if and only if the packet does not end inside the two ports of its UDP header (with the first byte of the destination port still right) |
| EchoPackets.StalePort | module3/Cross-task/1/raw_echo_server.c:60-79 | 60 bytes that are all IP header are taken for an empty message from any port that older bytes in the buffer spell |
| EchoPackets.ReplyFits | module3/Cross-task/1/raw_echo_server.c:60-151 | for every packet of at most 65535 bytes that passes the checks and every int counter the reply fits both buffers, its Length field is its true length, its Checksum is 0, it goes from the server's port to the client's and carries the reply text |
| EchoPackets.ReplyFitsPacket | module3/Cross-task/1/raw_echo_server.c:143-161 | the reply with its IP header is at most 65535 bytes if and only if data and digits are at most 65506 |
| EchoPackets.LongestIsAnsweredTooLong | module3/Cross-task/1/raw_echo_server.c:126-161 | from any client, the longest packet IPv4 can carry is accepted and its first reply is longer than IPv4 can carry |
| EchoPackets.ReplyRoundTrip | module3/Cross-task/1/raw_echo_server.c:126-141 | splitting a reply at its last space gives back the data and, in decimal without leading zeros, the number |
| EchoServer.Server.FindActive | module3/Cross-task/1/raw_echo_server.c:96-105 | the scan finds the client's active slot exactly if the map the slots stand for has the client, with its counter |
| EchoServer.Server.OpenSlot | module3/Cross-task/1/raw_echo_server.c:106-117 | a new client gets the first hole with counter 0; none is found exactly when 100 clients are active |
| EchoServer.Server.CloseClient | module3/Cross-task/1/raw_echo_server.c:82-94 | removes exactly that client from the map |
| EchoServer.Server.CountMessage | module3/Cross-task/1/raw_echo_server.c:96-124 | counts the message in the client's slot, old or new, or changes nothing when all slots are taken |
| EchoServer.Server.Handle | module3/Cross-task/1/raw_echo_server.c:60-168 | one turn of the loop refines the bounded map of counters, keeps at most one active slot per address and port, and answers as the map says; a reply longer than IPv4 can carry is counted but not sent |
| EchoServer.TableSize | module3/Cross-task/1/raw_echo_server.c:106-118 | with unique clients the number of active slots is the size of the map |
| EchoHistory.NumbersAreGapless | module3/Cross-task/1/raw_echo_server.c:82-124 | over any run of packets IPv4 can carry, the numbers given to a client's messages since its last CLOSE, sent or not, are exactly 1, 2, ..., k; k is how many of them were not refused, and the stored counter |
| EchoHistory.NumbersThatGoOut | module3/Cross-task/1/raw_echo_server.c:123-163 | over any such run the numbers that go out to a client are exactly those whose reply fits a packet, in order; they are 1, ..., k, with k the stored counter, if and only if every counted message has data and digits of at most 65506 bytes |
| EchoHistory.GapIsReachable | module3/Cross-task/1/raw_echo_server.c:123-163 | after the longest message and an empty one a client has been sent only the number 2; after the first it holds a slot and has been sent nothing |
| EchoHistory.ReceivedIsShort | module3/Cross-task/1/raw_echo_server.c:60-79 | every message read from a packet IPv4 can carry is one the run results above are about |
| EchoHistory.CountersMatchHistory | module3/Cross-task/1/raw_echo_server.c:82-124 | after any packets the table holds exactly the clients with a message counted since their last CLOSE, each with the number of such messages, never more than 100 |
| EchoHistory.RepliesCountMessages | module3/Cross-task/1/raw_echo_server.c:106-163 | the next message of a client with k counted since its last CLOSE is refused exactly when k is 0 and 100 others have one counted; otherwise it is counted as k + 1, and that number goes out exactly when data and digits are at most 65506 bytes |
| EchoHistory.NeverTooLarge | module3/Cross-task/1/raw_echo_server.c:135-138 | no packet IPv4 can carry is answered with "Response too large" |
| ContactList.PositionSplits | module2/4/4.1/main.c:63-72 | in a sorted list everything before the place found is not above the contact and everything after it not below |
| ContactList.InsertKeepsSorted | module2/4/4.1/main.c:57-77 | inserting keeps the list sorted and adds exactly the one contact |
| ContactList.EqualKeyPlace | module2/4/4.1/main.c:63-72 | a contact whose key equals the head's goes right behind the head; otherwise it goes before all contacts with its key |
| ContactList.RemoveKeepsSorted | module2/4/4.1/main.c:91-97 | deleting keeps the list sorted and removes exactly the one contact |
| ContactList.LinkFirst | module2/4/4.1/main.c:64-66 | on the heap: the node becomes the first, `next` and `prev` stay inverse |
| ContactList.FindPlace | module2/4/4.1/main.c:69-72 | the loop stops at the node just before the place of the contact |
| ContactList.LinkAfter | module2/4/4.1/main.c:73-76 | on the heap: the node comes after `cur`, `next` and `prev` stay inverse |
| ContactList.Unlink | module2/4/4.1/main.c:93-95 | on the heap: the node is taken out, first, last or in between, `next` and `prev` stay inverse |
| ContactList.List.InsertSorted | module2/4/4.1/main.c:57-77 | the list stays linked both ways, acyclic and sorted, with a new node for the contact at its place and all other nodes as they were |
| ContactList.List.FindNode | module2/4/4.1/main.c:79-89 | returns the first node with the key, null if there is none |
| ContactList.List.DeleteNode | module2/4/4.1/main.c:91-97 | the list stays linked both ways, acyclic and sorted, without that node; null changes nothing |
| ListRuns.SortedAndComplete | module2/4/4.1/main.c:57-97 | over any run no contact comes before an earlier one by surname and then name, and the list holds, as a multiset, what was inserted minus what was deleted |
| ListRuns.FoundAfterInsert | module2/4/4.1/main.c:57-89 | after inserting a contact a search for its key finds it, except that a head with the same key is found first |
| PriorityQueue.EnqueueIsStable | module2/4/4.2/main.c:29-39 | enqueueing keeps the descending order, puts the item last in the queue of its priority, and leaves the queues of all others alone |
| PriorityQueue.DequeueTakesOldest | module2/4/4.2/main.c:50-62 | taking the first item of a priority takes the oldest of it, keeps the order and leaves all other priorities alone; if there is none, the queue of that priority was empty |
| PriorityQueue.HeadIsHighest | module2/4/4.2/main.c:42-48 | the head is the oldest item of the highest priority there is |
| PriorityQueue.PriorityOpTakes | module2/4/4.2/main.c:50-62 | on any descending queue: an item of the priority goes exactly if there is one, it is the oldest, and all other priorities keep their queues |
| PriorityQueue.QueuesDetermine | module2/4/4.2/main.c:20-40 | the order and the queues of the single priorities determine the whole queue |
| PriorityQueue.LastAtLeast | module2/4/4.2/main.c:34-37 | the loop stops at the last item of at least the priority |
| PriorityQueue.LinkItem | module2/4/4.2/main.c:29-39 | on the heap: the item is linked in, at the front or behind `cur` |
| PriorityQueue.BeforePriority | module2/4/4.2/main.c:53-56 | the loop stops just before the first item of the priority, or at the last item |
| PriorityQueue.UnlinkItem | module2/4/4.2/main.c:44-61 | on the heap: the item is taken out and its `next` cleared |
| PriorityQueue.Queue.Enqueue | module2/4/4.2/main.c:20-40 | the queue stays linked, acyclic and descending, with one new node at the stable place |
| PriorityQueue.Queue.DequeueFirst | module2/4/4.2/main.c:42-48 | takes the oldest item of the highest priority and leaves the queues of all other priorities alone, or gives null and changes nothing when empty |
| PriorityQueue.Queue.DequeueByPriority | module2/4/4.2/main.c:50-62 | if any item has the priority, takes the oldest that has and leaves the queues of all other priorities alone; otherwise gives null and changes nothing |
| PriorityQueue.Queue.DequeueByMinPriority | module2/4/4.2/main.c:64-76 | if any item has at least the threshold, takes the oldest item of the highest priority; otherwise gives null and changes nothing: the walk never finds an item, its unlinking code is unreachable |
| QueueRuns.FirstInFirstOut | module2/4/4.2/main.c:20-76 | over any run of enqueues and the three dequeues the queue descends, and of every priority the items that entered are those taken, in the same order, followed by those still queued |

## Left out

- Terminals, menus, `printf` texts other than the protocols' own, signals, shutdown, and the start-up of processes except `create_driver`.
- Malloc failure, `free`, overlong strings and signed overflow: key fields are C strings shorter than their array, message counters stay below the largest int; that a freed node is not used again is known from its having left the structure.
- `delete_node` of the tree takes its key by value; the C code passes a pointer into the node it later removes, which it last reads before.
- The processes of the pool, the pipe, the broker system and the taxi dispatcher are step functions on values, not loops, because their statements interleave; one iteration of an inner loop (filling or scanning a block, copying a chunk) is one step.
- Pool: claims about the end of a run with several producers, where the first to finish sets `prod_done` for all; the partition and mutual exclusion cover them. `module3/4/task4.c` is not part of this model.
- BlockPoolSingle.WorkIsBounded: counts the sections of one run and does not say that waiting processes are scheduled fairly.
- Pipe: the `-p` mode, where one FIFO serves both directions; failing or partial `write` calls; files that change size during the transfer; an output file that cannot be opened. Pipes that hold fewer than 1024 bytes, which would split a write. The outputs are an ordered list, so two files with one name are two entries.
- Commands.RequestRoundTrip: topics are non-empty, shorter than 50 bytes and without commas or white space, process ids are above 1; on other messages `sscanf` may leave variables unset, which the model calls `Malformed` and does not follow.
- Broker.BrokerProcess.AddTopic: requires room in the arrays, which the program does not check; what it does beyond them, an out-of-bounds write, is not modelled. When there is room is stated exactly by Broker.OverflowIsExact.
- Broker.BrokerProcess.Handle: requires that room too, and a message that `sscanf` reads completely. A full or removed queue is not modelled. A slot's topics are a sequence, whose length stands for `topic_count`.
- PubSub.SubscribersReceiveWhatTheyWant: is about all runs of the system; which of them the program's arrays allow is stated exactly by PubSub.RunsWithRoom. Any client may unsubscribe, although no client of this repository sends that command.
- Taxi: failures of `pipe`, `fork` and `timerfd_settime`, `exit` and closed pipes; live process ids are assumed unique. A read takes all replies that are in the pipe. `get_drivers` prints for every slot what `get_status` prints for one, and is not modelled.
- TaxiSystem.AnswersMatchCommands: requires that no reply timed out; a late reply is read as part of the answer to a later command.
- EchoHistory.NumbersAreGapless: requires packets no longer than IPv4 carries, and no more of them than an int counts.
- EchoServer.Server.Handle: `sendto` fails for replies that are too long for IPv4 and for no other reason.
- The remaining programs are not modelled: the array phonebook, permission bits, the IP mask counter, the copies of the list in `module2/6`, calculators, plugins, chats and kernel modules.
