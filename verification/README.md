# nsca_fast, verified in Dafny

nsca_fast receives passive check results from NSCA clients and hands them to a monitoring core. This project models the
path of a result through one worker process, and the state machines around it, and proves what that path keeps.

A client connects, is sent a 128-byte initial vector, and sends 4304-byte packets encrypted from it. The worker cuts the
byte stream into packets, queues them, decrypts the queue when the stream ends (itself, or on a crypt thread), and for
each packet tests version, CRC and age before it offers the result to a command FIFO or, failing that, to a spool
directory. Around this run a file counter fed by inotify events, a one-second timer, an orderly shutdown, and a main
process that keeps the workers alive.

`dafny verify dfyconfig.toml` checks everything.

| file | content |
|---|---|
| `Bytes.dfy`, `Numbers.dfy`, `Runs.dfy` | bytes and options; bytes as numbers; runs of a state machine and the induction over them |
| `Crc.dfy` | CRC-32 as polynomial division, as a shift register, and as the table-driven code; burst detection |
| `Cipher.dfy` | the rotating XOR cipher and 8-bit CFB over an arbitrary block function; the in-place buffer routines |
| `Packet.dfy`, `Damage.dfy` | the wire layout, the acceptance tests, what a packet reports; which damage the CRC test lets through |
| `Wire.dfy` | how a client lays out and seals a packet, and what the server reads in it |
| `Framing.dfy` | the packet queue as a function of the arrivals |
| `Delivery.dfy` | which packets of a queue must reach the sinks; the end-to-end argument on values |
| `Rate.dfy`, `Server.dfy` | the requests-per-second window; the worker's configuration, timer and shutdown |
| `Client.dfy`, `Service.dfy` | one connection as an object with its callbacks; a whole connection from accept to free |
| `Pool.dfy`, `Worker.dfy` | the crypt threads; the whole worker as an interleaving of callbacks, signals and threads |
| `SpoolIndex.dfy` | the file counter against a kernel that queues inotify events |
| `Supervisor.dfy` | the main process, its workers, and its end |
| `Printers.dfy`, `Writers.dfy`, `Reports.dfy` | the two output texts and their readers; writing them; what a packet becomes |

## What the proofs say

* **Delivery.** For every list of good packets within the limit, every way of cutting the stream into arrivals of at
  most one packet, every cipher that can be opened, shared or own crypt instance, with or without threads: each packet
  is offered to the sinks once and in order, and successes plus failures add up to the number sent; one packet more
  than the limit allows and none is offered (`Service.ServeClient`, built from `Service.Serve` and
  `Service.Delivered`). The same holds for any list of connections one after the other on one worker and one thread,
  each of which leaves its own register behind in the instance they share (`Service.ServeAll`). A packet has to be good
  at the moment at which it is examined; the clock may show anything from one packet to the next.
* **What was said is what is read.** A sender that lays out host, service, return code and output byte by byte, seals
  and encrypts them, finds these very values offered to the sinks (`Service.ServeSender`), and a reader of the FIFO line
  or of the spool file gets them back, marked as a passive check of that time (`Reports.SaidIsRead`). An old 720-byte
  packet that arrives in one piece says the same, in every cipher (`Wire.OldPacketReported`).
* **Ciphers.** Every plaintext byte is given by its ciphertext byte and the ciphertext before it; behind the first
  register length of ciphertext the start register no longer matters (`Cipher.DecryptedAt`, `Cipher.CfbSynchronises`).
* **Any queue.** What is handed over is the longest prefix that passes the tests, at most one rejection is counted, and
  every packet and client is freed exactly once (`Client.NetworkClient.ProcessQueue`, `Delivery.GoodPrefixLongest`).
* **CRC.** The table-driven code computes the remainder of the division of RFC 1952 section 8 and ITU-T V.42 section
  8.1.1.6.2; that of the digits 1 to 9 is 0xCBF43926 (`Crc.CheckValue`). Any damage within 32 consecutive bits changes it, so a packet damaged in this way outside its CRC field is
  rejected, as is one damaged in that field only; without mcrypt the first holds for damage on the wire. Any other
  damage passes the CRC test if and only if the change of the field is what the change of the rest leaves in an empty
  register (`Damage.DamagePasses`).
* **Schedules.** In every run of a worker every client has one owner, is deleted at most once, and decrypts to what it
  would decrypt to alone; jobs are handed out in turn and never lost while the worker runs. A client is dead without a
  result if and only if it was cut off, closed without a usable instance, or closed with nothing queued; every other
  closed client is the next job or has its result at once (`Worker.RunFates`, `Worker.JobAnswered`).
* **The index.** While regular files come and go by creation and deletion only, the file counter is the number of
  files at some moment since the watch was added. In every run it is right throughout if and only if no file is renamed
  in or out of the watched directory, nothing else than files and directories comes or goes in it, and no directory
  with files is watched without being read (`SpoolIndex.CounterIsPastCount`, `SpoolIndex.RightExactly`). Only a check
  moves the write gate, and it opens it if and only if the number of files that the counter shows is below the limit
  (`SpoolIndex.GateFollowsFiles`); while it is closed no file is attempted (`Writers.WriteResult`).
* **The end.** A worker begins to shut down if and only if it is asked to while it has an event base; the next timer
  turns its listener off, and it leaves behind that timer if and only if no socket is open (`Worker.AskedLeaves`). The
  main process shuts down if and only if SIGINT or SIGTERM comes, is aborted if and only if one comes twice, and leaves
  its loop within fifteen turns of the first (`Supervisor.ShutdownWhenInterrupted`, `Supervisor.InterruptEnds`).

## Where the code does less than one might expect

Each of these has a lemma with the exact condition or a concrete case.

* `received` adds up buffer lengths, not bytes. A stream is taken for an old-format packet exactly if it is shorter than
  a packet and its prefix lengths add up to 720 (`Framing.TakenForOld`). So a 720-byte packet from an old client is
  recognised if and only if it arrives in one piece, and some shorter streams of 38 bytes or more are taken for one
  (`Framing.OldPacketNeedsOneArrival`, `Framing.OldLengths`, `Framing.ShortStreamTakenForOld`).
* The read callback takes one packet at a time. Complete packets stay behind in the buffer exactly if some stretch of
  arrivals up to the last completes more packets than it has arrivals (`Framing.NothingStranded`).
* A burst of 31 bits that starts in the CRC field and ends in the timestamp goes unnoticed in every good packet of full
  size, which is accepted with a wrong timestamp if its age is not tested (`Damage.BurstUnseen`,
  `Damage.BurstAccepted`).
* The age test passes a packet dated 2^31 seconds or more away (`Packet.AgeTest`, `Packet.AgeTestWraps`).
* A crypt thread that is asked to stop finishes one more job; joining loses the jobs behind it
  (`Pool.JoinLosesAllButOne`).
* A result whose file cannot be written in full, or cannot be marked as complete, is unlinked and yet counted as a
  success; a file that is cut short when it is closed is marked as complete; and if `fdopen` fails an empty file stays
  behind (`Writers.WriteResult`).
* A line of which the FIFO takes only a part counts as delivered (`Writers.FifoClient.Submit`).
* `threadManager::start` does not look at the result of `encrypt_init`. With a method whose algorithm cannot be opened,
  which config.cpp:211 does not rule out, no thread's instance is usable, and in shared mode the jobs run on them all
  the same (`Service.StartThreads`).
* A failing `fdopen` leaves the FIFO client with a descriptor and no stream, for good (`Writers.WedgedForGood`).
* The watch does not ask for renames, and the count leaves out what the events include. A file renamed into an empty
  spool directory and then deleted makes the counter negative; a symbolic link created in it is counted
  (`SpoolIndex.RenameGoesNegative`, `SpoolIndex.SpecialIsCounted`).
* A spool directory replaced between adding the watch and looking up its inode goes unnoticed until the old directory is
  destroyed or the path changes again, and nothing else ends that (`SpoolIndex.BlindAfterRace`,
  `SpoolIndex.BlindStep`, `SpoolIndex.BlindnessEnds`).
* A worker that was started again after a crash, and whose work ends for another reason than SIGUSR1, comes back to the
  main loop and idles there until the next SIGUSR1; meanwhile its slot counts as running (`Supervisor.RespawnedChild`).
* A SIGUSR1 that reaches a worker before its event base is made is lost: without another request it listens for good
  (`Worker.StopsWhenAsked`, `Server.Network.StopServer`).
* The buckets of the rate window add up to the growth of the counter over the last five seconds, plus what buckets not
  renewed since then still hold, minus what ticks since then have overwritten of each other, at whatever times they come
  (`Rate.BeatsSum`, `Rate.OverwrittenInOrder`). Two ticks in one second show only the second one
  (`Rate.SameSecond`); when the clock skips one second the sum is right exactly if nothing was seen six seconds ago
  (`Rate.SkippedSecond`).
* The per-connection totals pass through 16-bit parameters (`Server.Network.ReportSuccessFailed`).
* The sample configuration in the repository's README.md calls `decryption_mode=1` the default, and config.cpp:184-185
  falls back to 500 checks and the shared mode; the object that acts on them falls back to 1 and 0 (network.cpp:51-54).
  The model takes both as parameters.

## Model

| member | source | states |
|---|---|---|
| Crc.RegisterDivides | nsca_utils.cpp:38-53 | the reflected shift register, preset and complemented, holds the remainder of the message polynomial under schoolbook long division |
| Crc.FeedLinear | nsca_utils.cpp:47-50 | the register is linear over XOR in state and input together |
| Crc.StepZero | nsca_utils.cpp:28-31 | a zero-bit step can be undone: only the zero register goes to zero |
| Crc.FeedWindow | nsca_utils.cpp:47-50 | after a difference of at most 32 bits followed by zeros, the register is zero exactly if the difference cancels it |
| Crc.CrcDifference | nsca_utils.cpp:38-53 | the CRCs of two buffers of one length differ by what the difference of the buffers leaves in an empty register |
| Crc.BurstDetected | nsca_utils.cpp:38-53 | different buffers that differ only within 32 consecutive bits have different CRCs |
| Crc.FeedByte | nsca_utils.cpp:47-50 | one table lookup does the work of eight bit steps |
| Crc.ComputeEntry | nsca_utils.cpp:26-33 | the inner loop computes eight bit steps of the index |
| Crc.GenerateTable | nsca_utils.cpp:20-35 | every entry of the table is the eight bit steps of its index, in 32 bits |
| Crc.FastRound | nsca_utils.cpp:48-49 | a round of the table-driven loop keeps the register equal to the bit-serial one, also for sign-extended bytes, and below 2^32 |
| Crc.Calculate | nsca_utils.cpp:38-53 | the code returns the CRC of the buffer, 0 for a null pointer, that of no bytes for a negative size; never 2^32 or more |
| Crc.CheckValue | nsca_utils.cpp:38-53 | the CRC of the nine bytes "123456789" is the published check value 0xCBF43926 |
| Cipher.XorInvolution | nsca_utils.cpp:296-320 | the closed form of the rotating XOR, empty password included, is its own inverse |
| Cipher.CfbRoundTrip | nsca_utils.cpp:322-351 | byte-wise CFB decryption inverts encryption, for every block function and register |
| Cipher.CfbDecryptAt | nsca_utils.cpp:346-351 | byte k is decrypted with the first byte made of the register through which the k ciphertext bytes before it were shifted |
| Cipher.CfbEncryptAt | nsca_utils.cpp:322-327 | byte k is encrypted with the first byte made of the register through which the k ciphertext bytes before it were shifted |
| Cipher.CfbSynchronises | nsca_utils.cpp:346-351 | behind as many ciphertext bytes as the register holds, the plaintext is decided by these alone, whatever the start register |
| Cipher.DecryptedAt | nsca_utils.cpp:282-353 | every byte of a decrypted buffer in each mode: itself, XORed with IV and password in rotation, or CFB |
| Cipher.CfbDecryptConcat | network_client.cpp:318-327 | decrypting in two pieces with the register kept in between is decrypting in one |
| Cipher.DecryptInvertsEncrypt | nsca_utils.cpp:282-353 | in every mode decryption inverts encryption from the same register |
| Cipher.DecryptListInverts | network_client.cpp:318-327 | a list of packets decrypted with the register moving along gives back the list that was encrypted so |
| Cipher.DecryptListIsOneStream | network_client.cpp:318-327 | with mcrypt the packets of a connection are one CFB stream |
| Cipher.DecryptListAt | network_client.cpp:321-327 | the n-th packet is decrypted with the register left by the first n ciphertexts |
| Cipher.EncryptInit | nsca_utils.cpp:70-221 | fails exactly without a usable algorithm; keeps the received IV, its leading part as start register, and the padded password as key |
| Cipher.RotateOver | nsca_utils.cpp:299-317 | one rotating loop is XOR with the repeated key, for every key and buffer length |
| Cipher.XorBuffer | nsca_utils.cpp:296-320 | the two rotating loops compute the closed form in place |
| Cipher.CfbEncryptBuffer | nsca_utils.cpp:322-327 | the loop computes the CFB encryption of the buffer in place and leaves in the register the last bytes of what was shifted through it |
| Cipher.CfbDecryptBuffer | nsca_utils.cpp:346-351 | the loop computes the CFB decryption of the buffer in place and leaves in the register the last bytes of what was shifted through it |
| Cipher.EncryptBuffer | nsca_utils.cpp:282-328 | encrypts the given part of the buffer in place, nothing else, in every mode; without an instance does nothing |
| Cipher.DecryptBuffer | nsca_utils.cpp:332-353 | decrypts the given part of the buffer in place, nothing else, in every mode; without an instance does nothing |
| Packet.ReportOf | network_client.cpp:433-439 | the return code is bytes 12 and 13, the higher first; host, service and output are their fields up to the first zero, the last character always taken for one |
| Packet.AcceptedMeans | network_client.cpp:386-414 | a packet is accepted if and only if its first bytes are 0 and 3, bytes 4 to 7 hold the CRC of what was received with zeros in their place, and bytes 8 to 11 a date that is not too old |
| Packet.ReportIgnoresTerminators | network_client.cpp:437-439 | clearing the CRC field and forcing the terminators does not change what a packet reports |
| Packet.StoredWordIsCrc | network_client.cpp:334-338 | comparing machine words is comparing remainders |
| Packet.AgeTest | network_client.cpp:344-357 | switched off it accepts every date; otherwise exactly the dates whose distance, in its low 32 bits read as signed, is at most the limit: below 2^31 that is the distance itself |
| Packet.AgeTestWraps | network_client.cpp:346-352 | a packet dated 2^31 seconds ahead passes, where such a date fits the field |
| Packet.BurstRejected | network_client.cpp:391-399 | a good packet of any length damaged within 32 consecutive bits of what was received, outside the CRC field, is rejected |
| Damage.DamagePasses | network_client.cpp:391-399 | damage of any kind to a good packet passes the CRC test if and only if the change of the CRC field is what the change of the other bytes leaves in an empty register |
| Damage.CrcFieldDamage | network_client.cpp:391-399 | damage to the CRC field alone never passes |
| Damage.ProductLeads | nsca_utils.cpp:28-31 | what n zero bits make of a register is its product, as a polynomial modulo the generator, with what they make of 1 |
| Damage.BurstUnseen | network_client.cpp:391-399 | a pattern of fourteen bits within 31 that starts in the CRC field and ends behind it passes the CRC test in every good packet of full size |
| Damage.BurstAccepted | network_client.cpp:386-414 | without the age test such a packet is accepted, with another timestamp |
| Wire.PackReported | nsca_common.h:79-87 | whatever a client lays out byte by byte in a packet of any output size, host, service, return code and output, is what the server reports |
| Wire.PackAccepted | network_client.cpp:386-414 | a packet laid out and sealed like this is accepted if and only if its date is not too old |
| Wire.PacksReported | network_client.cpp:433-439 | packets that are not too old when they are examined are all good, and their reports are what was said |
| Wire.OldPacketReported | network_client.cpp:144-163 | an old 720-byte packet in one piece, in any cipher, is judged good exactly if it is not too old, and reports what was said |
| Framing.NothingLost | network_client.cpp:243-284 | the reference cut and its rest are the stream |
| Framing.FramesOfConcat | network_client.cpp:272-283 | cutting the concatenation of packets gives the packets |
| Framing.ChunkingIndependent | network_client.cpp:243-284 | for arrivals of at most one packet the connection survives exactly up to limit + 1 packets, and then queue and buffer are the reference cut of the stream |
| Framing.QueueBounded | network_client.cpp:260-266 | no queue ever holds more than limit + 1 packets, however data arrives |
| Framing.Backlog | network_client.cpp:272 | for arrivals of any size, how many complete packets wait in the buffer is decided by the stretches of arrivals up to the last |
| Framing.NothingStranded | network_client.cpp:272 | none waits exactly if no such stretch completes more packets than it has arrivals |
| Framing.DoubleArrivalStrands | network_client.cpp:272 | of two packets arriving at once the second stays in the buffer |
| Framing.ReceivedIsPrefixes | network_client.cpp:250-252 | while no packet is complete the byte count is the sum of the prefix lengths of the stream; afterwards bytes have been drained |
| Framing.TakenForOld | network_client.cpp:144-163 | a stream is taken for an old-format packet exactly if it is shorter than a packet and its prefix lengths add up to 720; then all of it is queued as one |
| Framing.PrefixesOvercount | network_client.cpp:250-252 | the byte count is right exactly for at most one arrival |
| Framing.OldLengths | network_client.cpp:144-163 | what is taken for an old-format packet has 38 to 720 bytes |
| Framing.OldPacketNeedsOneArrival | network_client.cpp:144-163 | an old-format packet is queued if and only if it arrives in one piece |
| Framing.ShortStreamTakenForOld | network_client.cpp:144-163 | 480 bytes in two halves are taken for an old-format packet |
| Delivery.GoodPrefixLongest | network_client.cpp:318-364 | the number of packets handed over is the length of the longest prefix that passes the tests |
| Delivery.OpensNext | network_client.cpp:318-327 | a queue is judged one packet at a time, the register moving along |
| Delivery.VerdictsIgnoreRegister | network_client.cpp:381-421 | without mcrypt the register plays no part |
| Delivery.SessionForgetsRegister | network_client.cpp:310-327 | whatever earlier jobs left in the register, a session decrypts as if alone |
| Delivery.FlipDecrypts | nsca_utils.cpp:296-320 | without mcrypt a bit flipped on the wire is that bit flipped in the packet |
| Delivery.WireBurstRejected | network_client.cpp:381-399 | without mcrypt a good packet of any length damaged on the wire within 32 consecutive bits of what was received, outside the CRC field, is judged bad |
| Delivery.CutAll | network_client.cpp:243-284 | packets within the limit, sent in any arrivals, are exactly the queue at the end |
| Delivery.HandedAll | network_client.cpp:298-366 | processing what a client encrypted hands over every report in order |
| Delivery.EndToEnd | network_client.cpp:243-462 | framing and processing together hand over exactly the packets sent |
| Delivery.OpenWithinLimit | network_client.cpp:260-266 | the connection of a correct client survives exactly within the limit |
| Delivery.OverlongConnectionLost | network_client.cpp:260-266 | one packet beyond the limit and the connection is cut off with its queue thrown away |
| Rate.WindowSum | network.cpp:140-143 | over ticks one second apart the buckets add up to the growth of the counter in the last five seconds |
| Rate.SavedRate | network.cpp:301-308 | the saved figure is the growth over the last five seconds divided by five, rounded down |
| Rate.BeatsSum | network.cpp:140-143 | for ticks at any times, and any second, the buckets add up to the growth since then, plus what buckets not written since then hold, minus what ticks since then have overwritten of each other |
| Rate.OverwrittenInOrder | network.cpp:140-143 | unless the clock is set back, a tick of the last five seconds has been overwritten exactly if the next tick came in the same second |
| Rate.SameSecond | network.cpp:140-143 | of two ticks in one second only what the second one saw is left |
| Rate.RisingSum | network.cpp:140-143 | for ticks in different seconds the sum is the growth over the last five seconds exactly if every bucket not written within them is empty, and more otherwise |
| Rate.SkippedSecond | network.cpp:140-143 | after one skipped second the sum is the growth over the last five seconds exactly if nothing was seen in the second before them |
| Rate.StoredExact | network.cpp:141-143 | an increment survives the detour through int exactly if it is below 2^31 |
| Server.Network.constructor | network.cpp:36-99 | a fresh worker has no connections and no crypt instance |
| Server.Network.SelectCryptInstance | network.cpp:87-97 | only a worker without threads in shared mode gets an instance, carrying the shared IV; failure leaves none in use |
| Server.Network.ReportSuccessFailed | network.cpp:294-299 | totals grow by the counts modulo 2^16 |
| Server.Network.SaveStatistics | network.cpp:301-308 | the figure is the 64-bit sum of the buckets divided by five |
| Server.Network.Enter | network.cpp:196-258 | makes the event base, the listener and the timer |
| Server.Network.StopServer | network.cpp:175-194 | with an event base stops listening, and schedules the exit exactly without connections; without one changes nothing and remembers nothing |
| Server.Network.Roll | network.cpp:135-147 | renews the bucket whose turn it is and saves statistics every fifth second |
| Server.Network.TimerTick | network.cpp:127-161 | rolls the buckets, checks the spool unless shutting down, and comes back unless the exit has been scheduled |
| Client.Sinks.Deliver | network_client.cpp:442-454 | one attempt with this report is logged; the FIFO is tried exactly if there is one, the spool exactly if there is one and the FIFO did not take it; success means one of them took the result |
| Client.StoredCounts | network_client.cpp:450-461 | what is counted as success is the number of attempts that a sink took |
| Client.NetworkClient.constructor | network_client.cpp:56-98 | an empty connection that counts; an IV of its own exactly in unshared mode, the worker's instance exactly if there is one |
| Client.NetworkClient.WriteCb | network_client.cpp:220-241 | one init packet at most, carrying the agreed IV; afterwards writing is switched off |
| Client.NetworkClient.Destroy | network_client.cpp:27-50 | every packet not freed before is freed now, each once |
| Client.NetworkClient.ProperDestroy | network_client.cpp:183-191 | the connection is uncounted, destroyed, and all its packets freed |
| Client.NetworkClient.ReadCb | network_client.cpp:243-284 | the callback is the arrival step of the framing model, and uncounts the connection exactly when it cuts it off |
| Client.NetworkClient.SetCi | network_client.cpp:425-431 | an own instance is never replaced, and the instance in use carries the agreed IV |
| Client.NetworkClient.ExamineAge | network_client.cpp:344-357 | the age test is passed exactly if the packet is fresh enough at the second at which it is examined |
| Client.NetworkClient.Examine | network_client.cpp:329-357 | a decrypted packet is accepted exactly if it passes version, CRC and age test at the second at which it is examined |
| Client.NetworkClient.SendReceiveMessage | network_client.cpp:433-462 | one attempt is logged, with the packet's report, and counted as success or failure |
| Client.NetworkClient.DecryptFront | network_client.cpp:326 | the front packet is decrypted in place and the register moves |
| Client.NetworkClient.OpenFront | network_client.cpp:321-327 | the first packet starts from the IV, the others from the state saved by their predecessor |
| Client.NetworkClient.Turn | network_client.cpp:318-364 | one turn hands over and frees a good packet, or counts a bad one and leaves it queued |
| Client.NetworkClient.QueueLoop | network_client.cpp:317-366 | the loop hands over exactly the longest good prefix, each packet judged at its own time, counts at most one rejection, leaves the rest queued and the instance usable |
| Client.NetworkClient.ProcessQueueMcrypt | network_client.cpp:298-366 | the same, for a queue opened from the instance's IV, whatever its register |
| Client.NetworkClient.ProcessQueueNomcrypt | network_client.cpp:368-423 | the same without mcrypt |
| Client.NetworkClient.ProcessQueue | network_client.cpp:286-296 | the queue is accounted for, the totals reported, the client deleted, every packet freed |
| Client.NetworkClient.PrepareCi | network_client.cpp:200-209 | in unshared mode an instance with the sent IV, or none if the algorithm is unusable; in shared mode nothing changes |
| Client.NetworkClient.ConnectionClosed | network_client.cpp:193-219 | the connection is uncounted, and refused, handed to a thread untouched, or settled and deleted |
| Client.NetworkClient.TakeOldPacket | network_client.cpp:144-163 | the queue at the end of the stream is that of the framing model |
| Client.NetworkClient.EventCb | network_client.cpp:124-166 | at the end of the stream the whole queue, an old-format packet included, is refused, handed on or settled |
| Client.NetworkClient.RunJob | crypt_thread_t.cpp:57-62 | a thread lends its instance and gets it back usable, and the queue is settled as under the agreed IV, whatever the thread did before |
| Service.Receive | network_client.cpp:220-284 | after accept, init packet and any arrivals the connection is in the state of the framing model |
| Service.StartThreads | threadManager.cpp:46-65 | every thread's instance agrees with the IV sent in shared mode if and only if the algorithm is usable |
| Service.StartUp | network.cpp:87-97 | unless starting fails, a worker without threads can serve connections, and so can every thread, in shared mode if the algorithm is usable |
| Service.Serve | network_client.cpp:56-296 | from accept to the last free, in every mode: the connection count is restored, worker and thread can serve again, and the queue is settled as under the IV that was sent, or the sinks are untouched if the connection was cut off or has no usable algorithm |
| Service.ServeClient | network_client.cpp:56-462 | a correct client within the limit has every report offered once and in order, beyond it none |
| Service.ServeSender | network_client.cpp:56-462 | host, service, return code and output of every report that a sender lays out, seals and encrypts arrive at the sinks as they were said, once and in order, through any arrivals; success is the number taken by a sink |
| Service.ServeAll | network_client.cpp:56-462 | correct clients one after the other on one worker and thread: all reports of all clients within the limit are offered once and in order, each with success + failed = number sent |
| Service.Delivered | network_client.cpp:298-462 | a settled queue of a correct client means every report offered once, in order, and success + failed = number sent |
| Service.SettledMeans | network_client.cpp:317-366 | for any queue, good or bad: the reports of the longest good prefix were offered once and in order; success counts those a sink took, failure the others and one rejected packet if there was one |
| Pool.MoveConserves | crypt_thread_t.cpp:44-66 | jobs added are jobs done, then the one in progress, then those queued, in order, through every step of a thread |
| Pool.PushConserves | crypt_thread_t.cpp:33-38 | the same through every addition |
| Pool.Progress | crypt_thread_t.cpp:47-64 | before shutdown a thread with work can step, and every step brings it closer to having none |
| Pool.AllDone | crypt_thread_t.cpp:46-64 | without shutdown a thread comes to rest exactly when every job is done |
| Pool.ShutdownFinishesOne | crypt_thread_t.cpp:51-64 | after shutdown one pending job is finished, if there is one, and then the thread exits |
| Pool.JoinLosesAllButOne | crypt_thread_t.cpp:51-64 | a thread that is asked to stop and runs until it is stuck has ended, and has lost jobs exactly if two or more were pending: all but the first |
| Pool.DispatchInTurn | threadManager.cpp:85-94 | the lazy counter keeps job k T + t as the k-th job of thread t |
| Pool.RoundRobin | threadManager.cpp:85-94 | job n goes to thread n mod T as its job n div T, and loads differ by one at most |
| Pool.CryptThread.Add | crypt_thread_t.cpp:33-38 | refines the addition of a job |
| Pool.CryptThread.WakeUp | crypt_thread_t.cpp:47-56 | takes the first job if there is one, otherwise leaves the loop; never pops an empty queue |
| Pool.CryptThread.JobDone | crypt_thread_t.cpp:57-64 | records the job and leaves the loop if shutdown was asked for |
| Pool.ThreadManager.AddJob | threadManager.cpp:85-94 | refines dispatch in turn |
| Worker.NextSound | network_client.cpp:183-219 | every callback, signal and thread step keeps one owner per client, one deletion at most, an exact connection count and the drain condition |
| Worker.NextResults | crypt_thread_t.cpp:54-62 | every step keeps the results there are as if each connection were alone, and leaves no finished job without one |
| Worker.RunKeeps | network_client.cpp:193-219 | all of this, and the distribution of jobs, holds in every run |
| Worker.ScheduleIndependent | threadManager.cpp:46-65 | equal packets and secrets decrypt alike in any two runs, on any number of threads |
| Worker.JobsComplete | crypt_thread_t.cpp:54-62 | a finished job has the result of its connection alone, and its client has been deleted once |
| Worker.RunFates | network_client.cpp:124-219 | in every run a client is dead without a result exactly if it was cut off, closed without a usable instance or with nothing queued; each other closed client is the next job, or without threads has the result it would have alone at once; jobs come in the order of closing |
| Worker.JobAnswered | threadManager.cpp:85-94 | the n-th job is job n div T of thread n mod T, and its client has its result exactly from the moment that job is done |
| Worker.NextThreads | crypt_thread_t.cpp:44-66 | a thread step moves that thread and no other, the worker leaves exactly once its exit is scheduled, and joining asks the one thread to end |
| Worker.TickDrains | network.cpp:153-194 | the timer schedules the exit exactly when no socket is open, and comes back exactly otherwise |
| Worker.ExitIsFinal | network.cpp:182-193 | after the exit was scheduled there is never an open connection or a new client |
| Worker.StopsWhenAsked | network.cpp:175-194 | in every run a worker begins to shut down if and only if a signal or SIGUSR1 comes while it has an event base; if none does it listens for good |
| Worker.AskedLeaves | network.cpp:153-194 | once asked to stop, the next timer turns the listener off, and the worker leaves its loop behind it if and only if no socket is open |
| Worker.StopsAtOnce | network.cpp:175-194 | SIGUSR1 turns the listener off at once, and schedules the exit at once if and only if no socket is open |
| Worker.DrainShrinks | network.cpp:182-188 | with the listener off the number of open sockets only goes down |
| SpoolIndex.NextSynced | result_path_client.cpp:94-163 | whatever happens to the directory and the client, there is one watch at most, pending events are its own, IN_IGNORED comes last, and counter and events lead to the present |
| SpoolIndex.RunSynced | result_path_client.cpp:94-259 | this holds in every run |
| SpoolIndex.IndexAgrees | result_path_client.cpp:94-144 | in every run a watched counter, corrected by what escaped, shows a moment since the watch, and with the pending events the present |
| SpoolIndex.CounterIsPastCount | result_path_client.cpp:94-144 | in every run of creations, deletions, replacements and readable counts a watched counter is a past number of files, never negative, and with the pending events the present one |
| SpoolIndex.RightExactly | result_path_client.cpp:94-144 | for every run: counter and pending events give the number of files at every moment exactly if no action escapes the watch or is a misread count |
| SpoolIndex.RenameGoesNegative | result_path_client.cpp:127-128 | a run with a rename ends with the counter at -1 |
| SpoolIndex.SpecialIsCounted | result_path_client.cpp:98-106 | a run with a symbolic link ends with the counter at 1 for an empty directory |
| SpoolIndex.RecountsFromScratch | result_path_client.cpp:108-142 | a directory is counted anew only when no watch and no event of an earlier one is left |
| SpoolIndex.FollowsThePath | result_path_client.cpp:247-258 | when the known inode is not the path's, one check ends the watch, and whatever files come and go meanwhile, its events clear the client and the next check counts and watches the path's directory |
| SpoolIndex.RunKnows | result_path_client.cpp:133-138 | in every run in which adding a watch and asking for its inode are one instant, the known inode is the watched one's or none |
| SpoolIndex.FollowsReplacement | result_path_client.cpp:247-258 | so in every such run a replaced directory is noticed by the next check, and the new one watched by the check after that, whatever files come and go in between |
| SpoolIndex.BlindAfterRace | result_path_client.cpp:133-138 | a run with a replacement in between ends with the client taking the old directory for the new |
| SpoolIndex.BlindStep | result_path_client.cpp:247-258 | exactly the end of the old directory and a new change of the path end this |
| SpoolIndex.StaysBlind | result_path_client.cpp:247-258 | no run of other actions does |
| SpoolIndex.BlindnessEnds | result_path_client.cpp:108-142 | after the end of the old directory the next check watches the new one |
| SpoolIndex.GateStep | result_path_client.cpp:224-234 | only a check moves the write gate, and it opens it exactly if the counter is then below the limit |
| SpoolIndex.RunGate | result_path_client.cpp:224-234 | in every run the gate is as the last check left it, and open before the first |
| SpoolIndex.GateFollowsFiles | result_path_client.cpp:214-234 | in every run of creations, deletions, replacements and readable counts a check of a watched directory opens the gate exactly if the number of files at the moment the counter shows is below the limit, and exactly if the present number is once every event is read |
| SpoolIndex.RegularCounts | result_path_client.cpp:265-278 | the count is the number of entries that are regular files |
| SpoolIndex.AttemptCounts | result_path_client.cpp:120-144 | an attempt to watch counts anew even if no watch can be added, and an unreadable directory counts as empty |
| SpoolIndex.CheckRefines | result_path_client.cpp:214-259 | the fields of the client after a check are those of the modelled world, given the answers of the kernel |
| SpoolIndex.ResultPathClient.EventReceived | result_path_client.cpp:94-115 | refines the handling of one event |
| SpoolIndex.ResultPathClient.ReadCb | result_path_client.cpp:75-88 | handles the events of one read in order |
| SpoolIndex.ResultPathClient.CountFiles | result_path_client.cpp:265-278 | counts the entries that are regular files; 0 for an unreadable directory |
| SpoolIndex.ResultPathClient.WatchDirectory | result_path_client.cpp:120-144 | unless there is a watch: counts, tries to add one, and keeps descriptor and inode if it was added |
| SpoolIndex.ResultPathClient.Check | result_path_client.cpp:214-259 | enables writing exactly if the counter found was below the limit, and gives up or renews the watch exactly when the known inode is not the one found; without limit or inotify does nothing |
| Supervisor.StartFills | processManager.cpp:154-167 | starting the workers fills exactly the idle slots whose fork succeeds, and counts them |
| Supervisor.ReapAllKept | processManager.cpp:198-217 | reaping any children keeps the books right |
| Supervisor.RunSound | processManager.cpp:97-217 | in every run the number of running workers is exact, running slots and unreaped children correspond one to one, and the loop ends only for its reasons |
| Supervisor.ShutdownEnds | processManager.cpp:346-362 | after a shutdown request nothing is forked, and fifteen turns end the loop |
| Supervisor.ShutdownWhenInterrupted | processManager.cpp:185-196 | in every run shutdown has been requested if and only if SIGINT or SIGTERM came, and the process has been aborted if and only if one came twice |
| Supervisor.TurnWaits | processManager.cpp:346-362 | a turn after that leaves at once without children, kills and leaves if it is the fifteenth, and otherwise waits; nothing is forked |
| Supervisor.InterruptEnds | processManager.cpp:185-362 | in every run that has been interrupted nothing is forked from then on, and fifteen turns later the loop has been left |
| Supervisor.ChildrenSignalled | processManager.cpp:331-335 | every child that has not been waited for is among the processes signalled |
| Supervisor.ChildStops | processManager.cpp:105-120 | a forked child forks no more on its way out of the slot loop |
| Supervisor.RespawnedChild | processManager.cpp:185-362 | through any turns and signals a worker back in the loop keeps its slots, forks nothing, and has left exactly if a turn came after a SIGUSR1; SIGINT and SIGTERM change nothing |
| Supervisor.ProcessManager.StartWorkers | processManager.cpp:154-167 | refines the start of all workers |
| Supervisor.ProcessManager.SlotOf | processManager.cpp:209-215 | the inner loop finds the first slot with the pid |
| Supervisor.ProcessManager.SigchldHandler | processManager.cpp:198-217 | refines reaping, each pid in the first slot that holds it |
| Supervisor.ProcessManager.KillChilds | processManager.cpp:331-335 | signals the process of every slot, in order |
| Supervisor.ProcessManager.SigintHandler | processManager.cpp:185-196 | in the main process the first one tells every slot's process and requests shutdown, the next aborts; a worker ignores it |
| Supervisor.ProcessManager.LoopOnce | processManager.cpp:346-362 | refines one turn of the loop, and kills every slot's process exactly in the turn that gives up waiting |
| Printers.FifoRoundTrip | fifo_client.cpp:108-116 | a reader of the FIFO line gets back the result that was written |
| Printers.FifoFits | fifo_client.cpp:105-117 | a line has at most 4345 characters, so its buffer of 4544 never truncates it |
| Printers.SpoolRoundTrip | result_path_client.cpp:347-366 | a reader of the spool file gets back the result that was written, and demands type 1, no schedule, no latency, and the file's time as start and finish |
| Printers.SpoolFits | result_path_client.cpp:296-366 | no line of the file is truncated by its buffer of 4608 |
| Printers.TwoPrintersOneResult | fifo_client.cpp:108-116 | either text gives the same result |
| Writers.BuildText | result_path_client.cpp:347-366 | the appended pieces are the lines of the file |
| Writers.WriteResult | result_path_client.cpp:292-395 | returns -5 exactly while the client's gate is closed, -4, -2 and -1 for descriptor 0, no stream and no descriptor, and 0 otherwise; a marked file survives exactly if it was also written and marked, and whole exactly if closing it flushed it; an empty one stays exactly for -4 and -2 |
| Writers.BacksOff | fifo_client.cpp:52-83 | a failed attempt to open keeps the client quiet for 60, 3 or 10 seconds, and no longer |
| Writers.WedgedBy | fifo_client.cpp:85-92 | the client gets stuck exactly by a failing fdopen |
| Writers.WedgedForGood | fifo_client.cpp:46-48 | a stuck client never writes again |
| Writers.OnlyFailuresBlock | fifo_client.cpp:52-92 | in every run a client with a descriptor is not blocked, and one without is blocked by a failed attempt's delay or not at all |
| Writers.OpenWrites | fifo_client.cpp:97-131 | in every run, once the FIFO is open every command is written at once, whatever failed before |
| Writers.BrokenPipe | fifo_client.cpp:118-124 | a broken pipe costs one command: the stream is given up, and the next one goes to a reader that has come back; no other outcome of write changes anything |
| Writers.Recovers | fifo_client.cpp:97-131 | without that failure a good opening after the back-off delivers again |
| Writers.FifoClient.Init | fifo_client.cpp:42-94 | blocks for 60, 60, 3, 10, 10 or no seconds after a failure, and not after an opening; returns 0 exactly for an opening, with or without a stream |
| Writers.FifoClient.Submit | fifo_client.cpp:97-134 | offers exactly the whole line, outside the back-off and with a stream; success means at least one character was taken, the whole line only if as many were |
| Reports.EveryPacketFits | network_client.cpp:433-454 | whatever bytes a packet holds, neither printer truncates its result |
| Reports.SaidIsRead | network_client.cpp:433-454 | host, service, return code and output that a client lays out in a packet, without characters that end a field, are what a reader of the FIFO line or the spool file gets, with the time of writing |
| Reports.SameLineSameReport | network_client.cpp:442-448 | packets with clean fields have equal lines exactly if they report the same |

## Left out

- libevent, sockets, fork, waitpid, signals, the clock, inotify and file system calls are outcomes given to the model or
  steps of its environment. That one read delivers at most one packet length is libevent's doing and a precondition of
  the framing results.
- libmcrypt: the first byte of the encrypted shift register is an arbitrary function of key and register, the sizes are
  arbitrary, and choosing an algorithm by number is left out. Algorithms without CFB mode are not covered.
- Allocation failures, and the short reads that libevent's buffers exclude.
- The statistics counters are read and written by several threads without a lock; the model updates them atomically.
- Signals are handled between the steps of the main process, so a SIGCHLD between fork and its bookkeeping is not
  covered; nor is what killing a slot with pid 0 does.
- Configuration, privileges, logging, the pid file, and the text of the statistics file; result_path_writer.cpp repeats
  the spool text and is not built.
- The quality of the generated IVs: they are arbitrary.
- Client.NetworkClient.Destroy: records the packets it frees, not the release of an own crypt instance, of the saved
  state and of the IV.
- Client.NetworkClient.RunJob: a shared-mode job on an instance whose initialisation failed is not modelled; the code
  would work on a cipher that was never opened.
- Client.PacketPair.Load: copies the packet into a buffer and back, so the aliasing of the packet's own memory is not
  captured.
- Client.NetworkClient.QueueLoop: one loop stands for the two that differ only in saving the register, and the clock is
  read once per packet where the age test reads it twice.
- Server.Network.Enter: event base, listener and timer appear in one step; a stop between them is not covered.
- Client.Sinks.Deliver: each sink succeeds or fails at will; which FIFO client belongs to which thread is not captured.
- Worker.NextSound: a job is finished in one step, which is sound because a thread's instance and a client belong to it
  alone; threads may be joined in any order.
- SpoolIndex.NextSynced: counting and adding the watch are one step, reads deliver whole events, and the kernel's event
  queue does not overflow.
- Supervisor.RunSound: with one worker the main process does the work itself, which is not modelled.
- Writers.BuildText: the two line ends after the time are appended one by one.
