# Verification of the mDNS engine and the configuration page

This Dafny project models the mDNS engine in `components/mdns` (names and their compression,
records and packets, the probe/announce protocol with its transmit queue, conflict resolution,
replies, searches and browses) and the two small codecs of the application in `src` (the form
decoder and the list of networks), and proves what they promise. `dafny verify dfyconfig.toml`
checks all of it.

## How it is built

Every part has functions that say what one call does, every failing branch included. Where the
program works by changing buffers, lists or fields step by step, methods with loops do the same in
place and are proved equal to those functions: `NameBuffer`, `TxBuffer`, `RecordBuffer`, `Dispatcher`
(packet buffer), `TransmitQueue` and `Responder` (queue and control blocks), `Sockets`, `Service` (a
linked list on the heap), `Search` and `Browse`. The lemmas are about the functions, and so about the
methods.

| files | what they model |
|---|---|
| `Bytes`, `FqdnReader`, `LabelNames`, `FqdnWriter` | the byte codecs; reading and writing of names |
| `Compression`, `FqdnFolding`, `CompressionTheorem`, `CompressionLimits`, `NameOverflow` | section 4.1.4 of RFC 1035: when a compressed name reads back, and when not |
| `RecordWriter`, `RecordReader`, `PacketWriter`, `Framing`, `PacketFraming` | records and packets, written with placeholders and read back |
| `NameAnchors`, `PacketNames` | the condition on a message under which its names can lean on one another, and all of it reads back |
| `TxtReader`, `Collision`, `Rename` | TXT items; tie-breaking (section 8.2 of RFC 6762); the next name |
| `Packets`, `PacketBuilder`, `TxQueue`, `QueueByPair` | probes, announcements and the queue they wait in |
| `Pcb`, `Responder`, `ProbePackets`, `ProbeDiscipline`, `ProbeSteps`, `ProbeRuns`, `Outcomes`, `Starts`, `ResponderRuns` | the state machine, its invariant, every step, every run, and what each step leaves in the queue (sections 8.1 to 8.3 of RFC 6762) |
| `Delivery`, `ServiceRemoval`, `Readiness`, `SocketRuns` | what reaches the wire; removing a service; which pairs have a socket, over every run |
| `KnownAnswers`, `ReplyContents`, `Subtypes`, `Queries`, `Browsing` | replies, subtype lists, searches, browses |
| `Form`, `ScanList` | the form decoder and the list of networks |

## Hypotheses

- Allocation succeeds, the clock does not wrap (insertion compares times plainly, the timer does not),
  and the host name, once set, is not empty.
- Received packets, and so replies, belong to a pair that is ready; replies are made only beyond probing.
- The loops over all pairs (`mdns_priv_probe_all_pcbs`, `mdns_priv_pcb_set_duplicate`) count turn by
  turn, and a newly allocated packet has an address that no waiting packet has.
- Labels have 1 to 63 bytes without NUL: the API accepts 64, the decoder does not. Names are C strings.
- In the framing theorems every append succeeds (`PacketNames.SmallMessageFits` is a condition for that),
  sections have fewer than 256 records, and a question takes fewer than 256 bytes (its length is a
  single byte).
- The search of `append_fqdn` decodes with the size of the whole array, of which only the header is
  cleared between packets. Where bytes behind the write index could matter they are taken to be zero.
  The decoder treats a packet that ends behind the first byte of a pointer as malformed.
- TXT items have at most 255 bytes; a name that conflicts has no number as large as the largest int.
- Whoever asks for a probe or an announcement asks for services or for the host, as every caller does.
- The type and protocol of a registered service do not change; host names may.

## What does not hold

Where the code falls short of a promise, the model keeps the code and says exactly when the promise
holds.

- The search of `append_fqdn` checks neither that the offset lies before the name nor the flags of what
  it decoded. `CompressionTheorem.CompressionIsSound` is an equivalence with the two missing tests.
  The first matters only for the name local.local, which is encoded as a pointer to itself
  (`CompressionLimits.PointersLeadBack`), and for labels that hide a later one
  (`CompressionLimits.HostHoldingLocal`); the second behind the owner of a subtype record
  (`CompressionLimits.SubtypeNameIsTaken`). `CompressionLimits.CleanReadsBack` says when neither does, and
  `PacketNames.ClearMessageReadsBack` gives a condition on the message.
- The failure of a later label is not passed on (mdns_send.c:732): `NameOverflow.LaterFailureIsHidden` says
  exactly when, `NameOverflow.BrokenQuestion` is a case. Failed records are not rolled back.
- A TXT key without a value is understood only in the last place (`TxtReader.TxtRoundTrip`).
- Known answers: the parser removes a question for every record that it takes to answer it, at any
  lifetime, before the answers are made. `KnownAnswers.MeetsSection71` says exactly when the reply is still
  the one section 7.1 of RFC 6762 asks for. It is not for a service under the default name (the
  application registers its only service so, src/wifi_manager.c:210), which silences all services of its
  type (`KnownAnswers.DefaultNameSilencesAll`), and not for a question about the instance itself
  (`KnownAnswers.OwnNameSilenced`). `append_host_list` leaves out the first delegated host
  (`KnownAnswers.FirstHostForgotten`).
- When a service is removed while its pair probes, the first question of its type goes, whichever service
  it is about (mdns_send.c:1796): `Starts.RemovalAsksForTheOther` is a run after which a service is claimed
  and never asked about. `Starts.RemovalKeepsAsking` and `ProbeRuns.ThreeProbesBeforeEveryClaim` say exactly
  when every transmission asks about what it claims.
- When the action queue refuses a packet and accepts a later one, the transmit queue can stop for good
  (`Delivery.StuckIsReached`, `Delivery.StuckStays`); `Delivery.TimerPromise` gives the exact condition.
- `PCB_STATE_IS_PROBING` is true of a duplicate as well (mdns_pcb.c:18); the invariant shows that it does
  no harm, because a duplicate is not ready and has no services.
- A multicast group is left only together with its interface (`Readiness.GroupLeftBehind`).
- A browse does not report every change: `Browsing.ReportedExactly` says which TXT records are missed:
  the first one of a result (`Browsing.FirstTxtMissed`), and a key that gives way to a repetition of
  another (`Browsing.LostKeyMissed`). A new port on the same host is not even stored
  (`Browsing.PortTaken`). Two packets read before the first report can make the second one name a freed
  result (`Browsing.SecondReportDangles`).
- `extract_field` promises to avoid partial names but finds a field whose name merely ends with the one
  asked for; `Form.FindsTheField` says when the right one is found.

## Model

| member | source | states |
|---|---|---|
| Bytes.U16RoundTrip | components/mdns/private_include/mdns_utils.h:18-21 | a 16-bit field reads back as the number that was written in network order |
| Bytes.U32RoundTrip | components/mdns/private_include/mdns_utils.h:30-33 | a 32-bit field reads back as the number that was written in network order |
| Bytes.NetworkOrder32 | components/mdns/mdns_send.c:39-49 | a 32-bit field is written with its highest byte first |
| FqdnReader.WalkName | components/mdns/mdns_utils.c:18-69 | the decoder terminates by (start of the segment, bytes left), makes progress on success, and accepts labels of 1 to 63 bytes only |
| FqdnReader.DecodeIsStable | components/mdns/mdns_utils.c:18-69 | a successful decode depends only on the offsets it looked at: any write elsewhere, and any change of length behind them, leaves it as it is |
| FqdnReader.FoldAppend | components/mdns/mdns_utils.c:32-62 | reading labels in two stretches builds the same name as reading them in one |
| FqdnReader.NameBuffer.Add | components/mdns/mdns_utils.c:32-50 | one label goes where the name buffer says: a flag, a continuation of the host with a dot, or the next of at most four parts; every field stays within its buffer |
| FqdnReader.CopyLabel | components/mdns/mdns_utils.c:28-31 | the label is copied into its buffer with a NUL behind it, and the bytes behind the NUL stay as they were; it fails exactly at the end of the packet |
| FqdnReader.ReadLabel | components/mdns/mdns_utils.c:24-50 | one turn of the loop: the label is copied and folded into the name, the rest of the name is what the specification says |
| FqdnReader.ReadFqdn | components/mdns/mdns_utils.c:18-69 | the loop with its recursion through pointers computes the specified name and end, for every byte sequence and start |
| FqdnReader.FollowPointer | components/mdns/mdns_utils.c:53-62 | a pointer is followed only to an offset before its own segment; its absence or any other target is a failure |
| FqdnReader.ParseFqdn | components/mdns/mdns_utils.c:71-103 | the parsed name has its labels in host, service, proto and domain as the number of parts demands, and is invalid outside local and arpa |
| LabelNames.DottedHostReads | components/mdns/mdns_utils.c:32-50 | labels that are neither a service type nor local, arpa, ip6 or in-addr become one host name with dots in front of local |
| LabelNames.FourthIsDomain | components/mdns/mdns_utils.c:71-103 | four labels are instance, service, proto and domain; the name is spoilt exactly when the domain is neither local nor arpa, and always by a fifth label |
| LabelNames.SubtypeReads | components/mdns/mdns_utils.c:32-50 | the label _sub only sets a flag: the subtype stands where an instance stands |
| FqdnWriter.PutBytesAt | components/mdns/mdns_send.c:103-113 | storing bytes at the write index changes those bytes and no others |
| FqdnWriter.FirstMatchIsFirst | components/mdns/mdns_send.c:695-716 | the search returns the least offset whose decode has the wanted labels, or none if there is none |
| FqdnWriter.TxBuffer.AppendByte | components/mdns/private_include/mdns_utils.h:147-155 | a byte is appended, or the call fails at the end of the buffer and changes nothing |
| FqdnWriter.TxBuffer.AppendShort | components/mdns/mdns_utils.c:262-270 | a 16-bit value is appended, or the call fails and changes nothing |
| FqdnWriter.TxBuffer.AppendLong | components/mdns/mdns_send.c:39-49 | a 32-bit value is appended; the call already fails when exactly four bytes are left |
| FqdnWriter.TxBuffer.AppendText | components/mdns/mdns_send.c:103-113 | a length byte (narrowed to 8 bits) and the text are appended, or the call fails and changes nothing |
| FqdnWriter.TxBuffer.FindMatch | components/mdns/mdns_send.c:695-716 | the scan finds the first offset that decodes to the wanted suffix, with the length of the whole array as the end of the packet |
| FqdnWriter.TxBuffer.SameNameAt | components/mdns/mdns_send.c:704-715 | an offset is a match if and only if it decodes to as many parts with the same texts up to case |
| FqdnWriter.TxBuffer.AppendFqdn | components/mdns/mdns_send.c:678-739 | the recursion with its pointer leaves exactly the specified bytes, index and length, also when a label fails in the middle |
| FqdnWriter.RoomExactly | components/mdns/mdns_send.c:39-113 | at which index each writer fails, in numbers, and that the buffer is unchanged then: the 32-bit and label writers leave one byte of the packet unused |
| FqdnWriter.CompressesWhenever | components/mdns/mdns_send.c:695-724 | whenever the name stands in the packet already, with the same first label and otherwise the same up to case, two bytes are written: a pointer to a match not behind that place |
| Compression.WalkOfOutput | components/mdns/mdns_send.c:678-739 | what the decoder reads from an encoded name, in any packet that still holds its bytes: the labels that were spelled out, then whatever stands at the offset pointed at |
| Compression.NameKeepsPrefix | components/mdns/mdns_send.c:718-739 | encoding changes nothing before the start of the name, whether or not the name fits |
| FqdnFolding.FoldBehind | components/mdns/mdns_utils.c:32-62 | labels read behind a pointer extend the name by the same texts that they form on their own, if they are neither a flag nor a continuation of the host |
| CompressionTheorem.SpelledOutReadsBack | components/mdns/mdns_send.c:678-739 | a name without pointer reads back from its starting offset as the same host, service, proto and domain |
| CompressionTheorem.PointedIsStable | components/mdns/mdns_send.c:718-739 | what stands at the offset pointed at reads the same after the name has been written |
| CompressionTheorem.PointedName | components/mdns/mdns_utils.c:53-103 | spelled labels and the labels behind the pointer make up the wanted name up to case if and only if the flags decoded there are clear |
| CompressionTheorem.CompressionIsSound | components/mdns/mdns_send.c:678-739 | append_fqdn followed by mdns_utils_parse_fqdn gives the same name up to case if and only if the offset that was picked lies before the name and decoded without a flag (the tests the search leaves out) |
| CompressionLimits.PointersLeadBack | components/mdns/mdns_send.c:695-739 | every pointer leads before its own name, for all three shapes of names none of whose labels hides a later one, with a single exception: local.local, when neither it nor local stands in the packet before |
| CompressionLimits.CleanReadsBack | components/mdns/mdns_send.c:678-739 | in a packet where whatever could be taken for a label of the name decodes within what has been written and sets no flag, the name reads back, with the same single exception |
| CompressionLimits.HostHoldingLocal | components/mdns/mdns_send.c:695-739 | a host name that ends in a copy of "local" behind its length byte is followed by a pointer into itself, and does not read back |
| CompressionLimits.SubtypeNameIsTaken | components/mdns/mdns_send.c:704-718 | behind the owner of a subtype record x._sub._svc._proto.local the name x._svc._proto.local becomes a pointer to it and does not read back |
| NameOverflow.ClosedIfAllFit | components/mdns/mdns_send.c:718-739 | what is written is a closed name (labels up to a zero byte or a pointer) if and only if the labels up to the pointer and the pointer itself fit |
| NameOverflow.LaterFailureIsHidden | components/mdns/mdns_send.c:726-733 | the caller is told of a failure if and only if the first step fails; it takes an unfinished name for written exactly when the first step fits and a later one does not |
| NameOverflow.BrokenQuestion | components/mdns/mdns_send.c:774-780 | with seven bytes left, the question for a.local is counted although its name breaks off behind the first label |
| RecordWriter.RecordBuffer.AppendFixed | components/mdns/mdns_send.c:61-92 | type, class with the flush bit, lifetime and an empty length are appended as the record type demands |
| RecordWriter.RecordBuffer.AppendOneTxt | components/mdns/mdns_send.c:115-133 | one TXT entry is appended with or without its equals sign and value, or fails |
| RecordWriter.RecordBuffer.AppendTxt | components/mdns/mdns_send.c:1019-1034 | the loop over the TXT items appends their entries in order, or fails at the first that does not fit |
| RecordWriter.RecordBuffer.AppendPayload | components/mdns/mdns_send.c:913-1037 | the data of each kind of record: a name, SRV numbers and target, TXT entries with a single zero byte standing for none, or an address; or the failure of the step that does not fit |
| RecordWriter.RecordBuffer.Append | components/mdns/mdns_send.c:792-1037 | owner, fixed part, data and the length patched last are exactly the specified record; a failure leaves behind what had been written |
| RecordWriter.RecordBuffer.AppendAsk | components/mdns/mdns_send.c:745-780 | a question is appended, its length narrowed to 8 bits |
| RecordReader.WalkRecord | components/mdns/mdns_receive.c:757-777 | one record of the walk: the parsed owner, type, class, lifetime and the place of the data, or none if they do not fit the packet |
| RecordReader.WalkRecords | components/mdns/mdns_receive.c:757-777 | the walk meets exactly the specified records and tells whether it reached the end of the packet |
| RecordReader.RecordTakenExactly | components/mdns/mdns_receive.c:757-777 | there is a record exactly where a name is readable and data that is not empty ends within the packet; and its fields byte by byte |
| RecordReader.QuestionTakenExactly | components/mdns/mdns_receive.c:676-692 | the same for a question, whose top class bit asks for a unicast reply |
| Framing.NameReadsBackInPacket | components/mdns/mdns_send.c:678-739 | in the finished packet, behind everything written and patched later, the receiver parses the name that was given if and only if the offset pointed at lies before the name and decodes without a flag |
| Framing.OwnerReadsBack | components/mdns/mdns_send.c:792-1037 | the same for the owner of every record |
| PacketFraming.DispatchedReadsBack | components/mdns/mdns_send.c:1340-1389 | if its names are sound where they are written, the receiver reads from a dispatched packet as many questions and records as there were, each with its name, type, class, lifetime and data, although every length was zero at first, and not a byte is left over |
| Framing.RecordOnWire | components/mdns/mdns_send.c:61-92 | the ten bytes between owner and data: type, class IN with the flush bit on top, lifetime, and the number of bytes that follow |
| RecordWriter.FailedRecordStays | components/mdns/mdns_send.c:792-1037 | a record that does not fit behind its owner fails and leaves the owner in the packet |
| PacketFraming.QuestionOnWire | components/mdns/mdns_send.c:745-780 | the four bytes behind the name of a question: type, and class IN with the bit for unicast replies on top |
| PacketFraming.CountsInHeader | components/mdns/mdns_send.c:1340-1389 | if every append succeeds, the header holds id, flags and the numbers of questions, answers, servers and additional records at offsets 0, 2, 4, 6, 8 and 10 |
| NameAnchors.NameStaysLegible | components/mdns/mdns_send.c:695-739 | each name in words that cannot be mistaken for one another is sound, and leaves the packet so that every place at which a word seems to start is a name that decodes within the packet |
| PacketNames.RecordStaysLegible | components/mdns/mdns_send.c:792-1037 | each record with such names and quiet data does the same, its length patched last |
| PacketNames.ClearMessageIsSound | components/mdns/mdns_send.c:1340-1389 | a condition on the message alone (standard names in unmistakable words, and no other bytes that look like the beginning of one) makes every name sound where it is written |
| PacketNames.ClearMessageReadsBack | components/mdns/mdns_receive.c:673-777 | and then the receiver reads back the whole message: questions and records in order, with the names they were given, every field, and not a byte left over |
| PacketNames.SmallMessageFits | components/mdns/mdns_send.c:1340-1389 | every append succeeds in a message that has room for all of it uncompressed |
| PacketNames.PlainQueryReadsBack | components/mdns/mdns_send.c:745-780 | a multicast query for names of letters and underscores reads back, whatever it asks, if it fits |
| PacketWriter.Dispatcher.WriteQuestions | components/mdns/mdns_send.c:1347-1356 | the loop over the questions appends them in order and counts those that fit |
| PacketWriter.Dispatcher.WriteSection | components/mdns/mdns_send.c:1358-1384 | the loop over one section appends its records in order and patches its count |
| PacketWriter.Dispatcher.Dispatch | components/mdns/mdns_send.c:1340-1389 | the datagram is the specified one, whatever was left in the static array by the packet before |
| TxtReader.CountItems | components/mdns/mdns_receive.c:181-203 | the number of TXT items, or failure, for every byte sequence |
| TxtReader.ResultTxtCreate | components/mdns/mdns_receive.c:224-316 | the list of keys and values for every byte sequence, including the parts the program skips |
| TxtReader.ParseReads | components/mdns/mdns_receive.c:224-316 | items with values before the last one come back in order with the same keys and value bytes |
| TxtReader.ParseLosesItsPlace | components/mdns/mdns_receive.c:224-316 | a key without a value anywhere but at the end makes the parser lose its place |
| TxtReader.TxtRoundTrip | components/mdns/mdns_receive.c:181-316 | serialising and parsing TXT items is the identity (an empty value coming back as none) if and only if no key without a value stands before the last item |
| TxtReader.OverrunGivesNothing | components/mdns/mdns_receive.c:181-203 | data in which a length leads beyond the end gives no items at all, and so does a single byte |
| Collision.CheckSrvCollision | components/mdns/mdns_receive.c:438-490 | the verdict is 1 exactly when their serialised claim is the greater one (longer, or as long and with the greater byte at the first difference), -1 exactly when ours is; a server without a host name never loses |
| Collision.SrvVerdictsAgree | components/mdns/mdns_receive.c:438-490 | when the sides swap, the verdict is negated, and it is 0 if and only if the claims are equal |
| Collision.SrvVerdictInFields | components/mdns/mdns_receive.c:438-490 | they win exactly with the longer host name or, at the same length, the greater priority, then weight, port and bytes of the host name; mirrored for us |
| Collision.BeatsChains | components/mdns/mdns_receive.c:438-490 | who beats a winner beats the loser, too |
| Collision.OneWinner | components/mdns/mdns_receive.c:438-490 | any finite set of different claims has exactly one that beats all others, it is the one with the greatest data, and every other one learns that it lost to it |
| Collision.CheckTxtCollision | components/mdns/mdns_receive.c:393-433 | they win exactly with some data against none or with the greater data, and so do we; for all data, where bytes of the stack that no entry overwrites take part only in data as long as a packet or longer |
| Collision.FilledIsEntries | components/mdns/mdns_send.c:115-133 | below the size of a packet the loop fills the buffer with all entries, one behind the other |
| Collision.EntryWrittenExactly | components/mdns/mdns_send.c:115-133 | an entry that would reach byte 1460 of the buffer is left out |
| Collision.TxtVerdictsAgree | components/mdns/mdns_receive.c:393-433 | two responders comparing each other's TXT data as sent come to opposite verdicts, and draw only with equal items, empty data included |
| Collision.TxtVerdictsChain | components/mdns/mdns_receive.c:393-433 | TXT verdicts are transitive |
| Collision.OneTxtWinner | components/mdns/mdns_receive.c:393-433 | any finite set of different lists of items has exactly one that beats all others, the one with the greatest data, and all others see it win |
| Collision.TxtEntriesInjective | components/mdns/mdns_send.c:115-133 | different TXT items have different bytes |
| Rename.MangleName | components/mdns/mdns_receive.c:138-176 | the result is the specified next name, and every write stays within the allocation |
| Rename.FitsAllocation | components/mdns/mdns_receive.c:155-173 | the next number has at most one digit more, so one byte more than the old name and its NUL is enough |
| Rename.MangledName | components/mdns/mdns_receive.c:138-176 | after n conflicts the name is the base with the number it started from plus n, or n + 1 if it had none |
| Rename.NamesNeverRepeat | components/mdns/mdns_receive.c:138-176 | no name is tried twice, below the largest int |
| Rename.NextOfTheName | components/mdns/mdns_receive.c:138-176 | digits behind the last dash count up by one, in decimal |
| Rename.SecondOfTheName | components/mdns/mdns_receive.c:155-160 | a name without a dash gets -2 behind it |
| Rename.TextBehindDash | components/mdns/mdns_receive.c:149-154 | text behind the last dash that is no number is part of the name, which gets -2 behind it |
| Packets.AddAnswerKeepsNoRepeats | components/mdns/mdns_send.c:213-238 | an answer list never holds the same (type, service, host) twice, and the answer is in it afterwards |
| Packets.ProbeUnicast | components/mdns/mdns_send.c:1394-1444 | every question of a first probe asks for a unicast reply, of a later one none |
| Packets.AnnouncesWhatWasProbed | components/mdns/mdns_send.c:1479-1514 | the announcement holds exactly the four records and the addresses of every claimed service and the address of every claimed host, with the right flush bits, and nothing twice |
| Packets.NewAnnouncementSays | components/mdns/mdns_send.c:1449-1474 | a new announcement: exactly the four records of each service among the answers, exactly the addresses of their hosts (or of our own) in the authority section if wanted, with the right flush bits |
| Packets.ExtensionSays | components/mdns/mdns_pcb.c:50-70 | an announcement that takes up services: exactly their records and, if wanted, the addresses join its answers, and the first address records of either kind leave the additional section |
| ProbePackets.NewProbe | components/mdns/mdns_send.c:1394-1444 | a new probe: one question for everything per service and one SRV claim per service, both in order, and exactly if the host is claimed one question per different host name and both addresses of each host; nothing else |
| ProbePackets.StillAsked | components/mdns/mdns_pcb.c:217-222 | clearing the unicast marks keeps type, service and host of every question |
| ProbePackets.QuestionGoes | components/mdns/mdns_send.c:1796-1815 | what is asked about stays, of each type, the last ones of those the probe began with, as many as are still claimed |
| ProbePackets.LastExactly | components/mdns/mdns_send.c:1796-1815 | these are the services still claimed exactly when no removed service has been overtaken by one of its type |
| PacketBuilder.CreateAnswer | components/mdns/mdns_send.c:213-238 | the scan of the list finds the answer or appends it at the end |
| PacketBuilder.AppendHosts | components/mdns/mdns_send.c:348-365 | addresses of the hosts of all services, or of the own host if there are none |
| PacketBuilder.AppendHostQuestions | components/mdns/mdns_send.c:402-438 | one question per host name, the own first, none twice |
| PacketBuilder.BuildProbe | components/mdns/mdns_send.c:1394-1444 | the loops over services and hosts build, with every repetition left out, the packet that ProbePackets.NewProbe describes |
| PacketBuilder.BuildAnnouncement | components/mdns/mdns_send.c:1449-1474 | the loops build the specified announcement |
| PacketBuilder.BuildFromProbe | components/mdns/mdns_send.c:1479-1514 | the loop over the claims of the probe builds the specified announcement |
| PacketBuilder.ClearUnicast | components/mdns/mdns_pcb.c:217-222 | the loop clears the unicast mark of every question and nothing else |
| PacketBuilder.ExtendAnnouncement | components/mdns/mdns_pcb.c:50-70 | a running announcement takes up the new services, and the addresses move from the additional section |
| TxQueue.TransmitQueue.SendAfter | components/mdns/mdns_send.c:1628-1646 | the packet is stamped and put behind every packet that is not later |
| TxQueue.TransmitQueue.ClearFor | components/mdns/mdns_send.c:1667-1687 | the packets of one pair are gone, all others stay in order |
| TxQueue.TransmitQueue.FindNext | components/mdns/mdns_send.c:1695-1705 | the first packet of a pair, or none |
| TxQueue.TransmitQueue.SendPackets | components/mdns/mdns_send.c:1714-1746 | the timer passes the packets already handed over, then marks due packets in order and queues an action for each the action queue accepts |
| TxQueue.TransmitQueue.Take | components/mdns/mdns_send.c:1837-1848 | a packet leaves the queue only if it is at the head and was handed over; its mark is cleared |
| TxQueue.InsertPlace | components/mdns/mdns_send.c:1628-1646 | everything before the new packet is not later, everything behind it is strictly later: ties stay in the order of insertion |
| TxQueue.InsertOk | components/mdns/mdns_send.c:1628-1646 | insertion keeps the queue sorted, its ids distinct, and handed-over packets due |
| TxQueue.ClearIsSublist | components/mdns/mdns_send.c:1667-1687 | clearing keeps exactly the packets of other pairs, in order |
| TxQueue.MarkOk | components/mdns/mdns_send.c:1714-1746 | the timer changes nothing but marks, and marks nothing that is not due |
| TxQueue.MarkedExactly | components/mdns/mdns_send.c:1714-1746 | packet by packet: those handed over before and those not due stay as they are, each other one is handed over just if the action queue takes it |
| TxQueue.ActionsExactly | components/mdns/mdns_send.c:1714-1746 | just the packets that are handed over get an action |
| TxQueue.MarkKeepsOk | components/mdns/mdns_send.c:1714-1746 | the timer keeps the queue sorted, its ids distinct, and handed-over packets due |
| TxQueue.SentIsDueAndFirst | components/mdns/mdns_send.c:1837-1848 | what leaves the queue to be sent is due, and no waiting packet is earlier |
| QueueByPair.OfInsert | components/mdns/mdns_send.c:1628-1646 | for its own pair an insertion is one among the packets of that pair, at its place in time; the packets of every other pair stay as they were |
| QueueByPair.OfClear | components/mdns/mdns_send.c:1667-1687 | clearing a pair leaves it without packets and every other pair with all of its own |
| QueueByPair.KeptByMark | components/mdns/mdns_send.c:1714-1746 | the timer adds and removes nothing for any pair, and changes no time, question or claim |
| Responder.Deduplicate | components/mdns/mdns_pcb.c:399-417 | the nested loops keep the services that are not probed already, in order |
| Responder.Merge | components/mdns/mdns_pcb.c:339-370 | the new array holds the added services and behind them those probed already |
| Responder.CloseGap | components/mdns/mdns_pcb.c:279-283 | the entry is gone and those behind it have moved up |
| Responder.DropAnswers | components/mdns/mdns_send.c:1753-1773 | the answers of a service are gone, all others stay in order |
| Responder.DropOneQuestion | components/mdns/mdns_send.c:1796-1815 | the first question with the type and protocol of the service is gone, the others stay |
| Responder.Responder.StartProbe | components/mdns/mdns_pcb.c:339-387 | the new state of the whole responder after init_probe_new_service |
| Responder.Responder.InitProbe | components/mdns/mdns_pcb.c:389-424 | the new state of the whole responder after mdns_priv_init_pcb_probe |
| Responder.Responder.Reprobe | components/mdns/mdns_pcb.c:445-462 | the new state after one turn of mdns_priv_probe_all_pcbs |
| Responder.Responder.Restart | components/mdns/mdns_responder.c:238-260 | the new state after the queue has been emptied and every ready pair probes for all services |
| Responder.Responder.Announce | components/mdns/mdns_pcb.c:43-84 | the new state of the whole responder after mdns_priv_pcb_announce, in each of the four groups of states |
| Responder.Responder.Enable | components/mdns/mdns_pcb.c:172-181 | the new state after an interface has been enabled, whether or not its socket can be set up |
| Responder.Responder.Disable | components/mdns/mdns_pcb.c:153-167 | the new state after an interface has been disabled, a waiting duplicate taking over |
| Responder.Responder.SetDuplicate | components/mdns/mdns_pcb.c:186-204 | the new state after an interface gave way to the other one on its network |
| Responder.Responder.Schedule | components/mdns/mdns_pcb.c:211-259 | the new state after a packet has been sent, for each of the ten states |
| Responder.Responder.Execute | components/mdns/mdns_send.c:1827-1848 | the new state after the service task has carried out the next action |
| Responder.Responder.CheckProbing | components/mdns/mdns_pcb.c:261-300 | the new control block, and whether a question has to go |
| Responder.Responder.RemoveService | components/mdns/mdns_send.c:1778-1825 | the new state after the loop over all waiting packets, which detaches some of them |
| ResponderRuns.Perform | components/mdns/mdns_pcb.c:43-462 | every step the runs below are made of is carried out in place by the methods above, and keeps the invariant |
| ProbeSteps.UnionOfServices | components/mdns/mdns_pcb.c:399-417 | extending a probe: old and new services, each once |
| ProbeSteps.InitProbeOk | components/mdns/mdns_pcb.c:389-424 | whatever state it was in, a ready pair then probes exactly the union, the old services behind the new: one packet waits, a new probe for all of them, due after 120 ms (1000 after more than five conflicts) and the random delay; no other pair is touched |
| ProbeSteps.ReprobeKeepsInv | components/mdns/mdns_pcb.c:445-462 | probing a pair again keeps the invariant |
| ProbeSteps.RestartKeepsInv | components/mdns/mdns_responder.c:238-260 | emptying the queue and probing all pairs anew keeps the invariant, although no pair has a packet in between |
| ProbeSteps.StrippedClaims | components/mdns/mdns_pcb.c:261-300 | when a service is removed, the packet of a pair that still probes claims exactly what is left, asks what is left of the questions it began with, and is not empty |
| ProbeSteps.TimerKeepsInv | components/mdns/mdns_send.c:1714-1746 | the timer keeps the invariant |
| ProbeSteps.AnnounceKeepsInv | components/mdns/mdns_pcb.c:43-84 | announcing keeps the invariant |
| ProbeSteps.EnableKeepsInv | components/mdns/mdns_pcb.c:172-181 | enabling an interface keeps the invariant |
| ProbeSteps.DisableKeepsInv | components/mdns/mdns_pcb.c:153-167 | disabling an interface keeps the invariant, whichever state the other one is in |
| ProbeSteps.DuplicateKeepsInv | components/mdns/mdns_pcb.c:186-204 | marking a duplicate keeps the invariant |
| ProbeSteps.OneSent | components/mdns/mdns_pcb.c:211-259 | each transmission of the probe adds one to the transmissions the log ends in, at the right distance |
| ProbeSteps.ClaimOk | components/mdns/mdns_pcb.c:228-243 | names are claimed only behind three such transmissions |
| ProbeSteps.ExecuteKeepsInv | components/mdns/mdns_send.c:1827-1848 | sending a packet and scheduling what follows keeps the invariant |
| ProbeSteps.CheckProbingOk | components/mdns/mdns_pcb.c:261-300 | the removed service, and no other, leaves the list of probed services |
| ProbeSteps.GivesUpExactly | components/mdns/mdns_pcb.c:261-300 | a pair gives up exactly when it probes and nothing is left to claim, or announces and the answers have gone; a question goes exactly when the service was being claimed |
| ProbeSteps.RemoveKeepsInv | components/mdns/mdns_send.c:1778-1825 | removing a service keeps the invariant at every packet of the loop |
| ProbeRuns.EveryStateOk | components/mdns/mdns_pcb.c:43-462 | the invariant holds in every state of every run |
| ProbeRuns.ThreeProbesBeforeEveryClaim | components/mdns/mdns_pcb.c:211-259 | whenever a pair claims its names, it began with a new probe that asks about every service and host it claims, and has sent it exactly three times: over 120 ms after the start, then over 250 ms apart, unicast questions only in the first; each transmission asks about exactly the services it claims if and only if no removed service has been overtaken by one of its type; and exactly the claims of the third are announced for 250 ms later |
| ProbeRuns.BeyondProbing | components/mdns/mdns_pcb.c:211-300 | a pair beyond probing has claimed its names in this way, or its probe was cancelled because nothing was left to claim |
| ProbeRuns.BlocksInEveryState | components/mdns/mdns_pcb.c:107-122 | in every state: probe_running exactly in the three probing states, probed services only there and none twice, ready exactly beyond the duplicate state |
| ProbeRuns.OnlyTheProbeWaits | components/mdns/mdns_send.c:1667-1687 | in every state: nothing waits for a pair that is off, and while a pair probes exactly one packet waits, what is left of the probe it began with: it claims exactly the probed services, and asks about them under the same condition |
| ProbeRuns.QueueInEveryState | components/mdns/mdns_send.c:1628-1746 | in every state of every run the queue is sorted with distinct ids, and what can be sent next is due and earliest |
| ProbeRuns.DuplicateIsCovered | components/mdns/mdns_pcb.c:186-204 | a duplicate is not ready while the other interface is |
| ProbeRuns.DisablingReleasesDuplicate | components/mdns/mdns_pcb.c:153-181 | disabling the other interface always releases a duplicate, which then probes for all services if its socket can be set up |
| Outcomes.EveryTransmission | components/mdns/mdns_pcb.c:211-259 | in every state of every run, whatever packet is sent: a probe waits again with the same questions and claims 250 ms later, unicast marks cleared; after the third transmission an announcement of exactly its claims waits 250 ms later and nothing else for that pair; a sent announcement waits again unchanged one second later, twice, then the pair is running and nothing waits again; no other pair is touched |
| Outcomes.OnlySendingClaims | components/mdns/mdns_pcb.c:228-243 | no other step of the protocol claims anything |
| Outcomes.ClaimIsAnnounced | components/mdns/mdns_pcb.c:228-250 | in every run, whenever a claim is noted, exactly one packet waits for the pair: the announcement that covers every claim of the third transmission, for 250 ms after it |
| Starts.SwitchedOnProbes | components/mdns/mdns_pcb.c:172-181 | a pair that was off probes for exactly the registered services and the host if its socket can be set up, and stays off otherwise |
| Starts.AnnouncesAsItShould | components/mdns/mdns_pcb.c:43-84 | on every ready pair: while probing it probes anew with the services added; while announcing the first waiting packet takes them up and counting begins again; when running a new announcement of exactly them is due at once |
| Starts.DuplicateGivesWay | components/mdns/mdns_pcb.c:186-204 | the pair that gives way is a silent duplicate without packets, and the other interface announces its own host |
| Starts.ReprobeProbes | components/mdns/mdns_pcb.c:445-462 | probing again: for the given services, and for those probed before unless they are to be cleared |
| Starts.RestartProbesAll | components/mdns/mdns_responder.c:238-260 | after a restart every ready pair probes for exactly the registered services and the host |
| Starts.RemovalKeepsAsking | components/mdns/mdns_send.c:1796-1815 | removing a service from a probe that asks about exactly what it claims leaves it so if and only if no probed service of the same type stands in front of the removed one |
| Starts.RemovalAsksForTheOther | components/mdns/mdns_send.c:1796-1815 | a run of two steps after which the probe claims one service and asks about another, removed one |
| Delivery.TimerPromise | components/mdns/mdns_send.c:1714-1746 | the timer keeps the promise that carrying out the actions sends everything handed over, if and only if the action queue does not accept a packet after it has refused an earlier one |
| Delivery.ServedIsPrefix | components/mdns/mdns_send.c:1714-1746 | packets handed over stand at the front of the queue |
| Delivery.StepServed | components/mdns/mdns_send.c:1628-1848 | every other step of the protocol keeps that promise |
| Delivery.EverythingHandedOverIsSent | components/mdns/mdns_send.c:1714-1848 | over every such run: once the actions are worked off, nothing handed over is left unsent |
| Delivery.StuckIsReached | components/mdns/mdns_send.c:1721-1744 | from the state in which nothing is switched on, a run of six steps in which the action queue refuses one packet and accepts the next leads to a queue whose head no action will send |
| Delivery.StuckStays | components/mdns/mdns_send.c:1721-1848 | from then on no ordinary step sends anything on any pair |
| ServiceRemoval.RemovalFiltersQueue | components/mdns/mdns_send.c:1778-1825 | the queue afterwards: every packet without the answers of the service, a claimed service without its question, empty packets gone, all others in order |
| ServiceRemoval.NothingRefersToRemoved | components/mdns/mdns_send.c:1778-1825 | no answer, server or additional entry of any waiting packet refers to the service, and no packet is empty |
| ServiceRemoval.RemovalForgetsService | components/mdns/mdns_pcb.c:261-300 | no pair claims the removed service any more, and every ready pair goes on claiming all others |
| Readiness.Sockets.Init | components/mdns/mdns_networking_lwip.c:282-301 | a pair becomes ready exactly when it was not, its group can be joined and the shared control block exists or can be bound |
| Readiness.Sockets.Deinit | components/mdns/mdns_networking_lwip.c:267-277 | exactly this pair is not ready any more, the shared control block goes with the last one, and the group is left only with the interface |
| Readiness.Sockets.AnyInUse | components/mdns/mdns_networking_lwip.c:251-262 | whether any pair is ready |
| Readiness.GroupLeftBehind | components/mdns/mdns_networking_lwip.c:267-277 | with both protocols switched off one after the other, the group of the first one is still joined |
| SocketRuns.StepAgrees | components/mdns/mdns_pcb.c:153-204 | every step of the protocol leaves ready exactly the pairs whose sockets are set up |
| SocketRuns.SharedBlockInEveryState | components/mdns/mdns_networking_lwip.c:242-301 | in every state of every run the shared control block exists if and only if some pair is ready |
| KnownAnswers.CreateReply | components/mdns/mdns_send.c:523-665 | the nested loops over questions, services and known records put together the specified reply, or none |
| KnownAnswers.AnswerFromService | components/mdns/mdns_send.c:255-301 | the calls that add answers and additional records for one service, each only if it is not there; what they add for each type of question is in ReplyContents.ReplyHoldsExactly |
| KnownAnswers.MatchesQuestion | components/mdns/mdns_send.c:313-336 | a service is asked for by type, protocol, and instance or subtype |
| KnownAnswers.AlreadyKnown | components/mdns/mdns_send.c:561-579 | the loop over the records finds whether one of them suppresses the answer |
| KnownAnswers.PtrAnswersExactly | components/mdns/mdns_send.c:523-665 | with service PTR questions only, a service gets its PTR answer exactly when a question asks for it and no known answer suppresses it |
| KnownAnswers.RemoveParsedQuestion | components/mdns/mdns_receive.c:518-584 | the first question the record is about is gone, the others stay in order, for every type of question |
| KnownAnswers.OnlyFirstGoes | components/mdns/mdns_receive.c:553-584 | only the first question that matches goes, whatever comes behind it |
| KnownAnswers.AbsorbRecords | components/mdns/mdns_receive.c:826-911 | the loop over the records of a query: which questions are left, and which answers are known |
| KnownAnswers.LeftExactly | components/mdns/mdns_receive.c:518-584 | if no record matches two of the questions, those left are exactly those that no record matches |
| KnownAnswers.QueryAnswersExactly | components/mdns/mdns_receive.c:826-911 | the query as a whole, for all servers, questions and records: a service gets its PTR answer exactly when a question that is left asks for it and no record that names one of ours keeps it back |
| KnownAnswers.MeetsSection71 | components/mdns/mdns_send.c:555-585 | exactly when that is what section 7.1 of RFC 6762 asks for, for services with a name of their own and for those under the default name |
| KnownAnswers.SingleQuestion | components/mdns/mdns_receive.c:843-866 | a single question, own name: section 7.1 is missed exactly when the answer is due and some record makes the parser withdraw the question |
| KnownAnswers.SingleQuestionByDefault | components/mdns/mdns_receive.c:843-866 | a single question, default name: it is met exactly when a record names the service with enough lifetime if and only if some record withdraws the question |
| KnownAnswers.DefaultNameSilencesAll | components/mdns/mdns_receive.c:518-584 | with a service under the default name in the records there is no reply at all, although another service is asked for and not known |
| KnownAnswers.OwnNameSilenced | components/mdns/mdns_receive.c:532-540 | a record with one second left withdraws the question for the instance it names, so that the answer that is due is not given |
| KnownAnswers.RepliesRepeatNothing | components/mdns/mdns_send.c:213-301 | no section of a reply holds the same (type, service, host) twice, and what an earlier question put in stays in its place |
| ReplyContents.ReplyHoldsExactly | components/mdns/mdns_send.c:255-301 | for any questions and services: a record is in the answers or in the additional section exactly when some question puts it there: SRV and TXT by instance, PTR and SDPTR by type, both kinds of ANY, and when addresses go where; its flush bit is that of the reply except for PTR records of a service |
| ReplyContents.ReplyExactly | components/mdns/mdns_send.c:523-665 | there is a reply exactly when some question is answered by a service or names none |
| ReplyContents.AskedByName | components/mdns/mdns_send.c:313-336 | a service is asked for exactly by its own names: its type, its instance, and each of its subtypes |
| ReplyContents.FoundIsFirst | components/mdns/mdns_utils.c:143-160 | questions for SRV and TXT data find the first registered service of that type and instance |
| ReplyContents.InstanceIsResolved | components/mdns/mdns_send.c:284-297 | a question for the SRV or TXT record of a registered instance is answered with that record, an SRV record together with the addresses of its host |
| ReplyContents.PointerWithdraws | components/mdns/mdns_receive.c:518-584 | which question a PTR record removes: of its kind, for the type of the first service it names and, if that has a name of its own, for this instance; in a probe only service discovery |
| ReplyContents.OtherWithdraws | components/mdns/mdns_receive.c:518-584 | which question any other record removes: never in a probe, any of its kind for addresses, else the one for the instance name of the first service of that type |
| KnownAnswers.FirstHostForgotten | components/mdns/mdns_send.c:367-383 | of the delegated hosts the first is answered exactly when it is the own host or occurs again, every other always, and whenever there is one so is a host that does not exist |
| Subtypes.Service.FindNeededSendbye | components/mdns/mdns_responder.c:1314-1362 | the linked list falls in place into the subtypes that stay and those that go, both in the old order, both null-terminated |
| Subtypes.PartsArePartition | components/mdns/mdns_responder.c:1314-1362 | nothing is lost, nothing is shared between the two lists |
| Subtypes.Service.Add | components/mdns/mdns_responder.c:1245-1267 | a new subtype becomes the first, one that exists is refused |
| Subtypes.Service.Remove | components/mdns/mdns_responder.c:1183-1210 | the first node of that name is unlinked, the others stay |
| Subtypes.Service.Update | components/mdns/mdns_responder.c:1364-1409 | goodbyes go to exactly the old subtypes not in the new list, in old order; the list is built anew from the new ones |
| Subtypes.UpdateLeavesTheNewSet | components/mdns/mdns_responder.c:1364-1409 | an update succeeds exactly when no name is given twice, and then the service has exactly the new set |
| Subtypes.StopsAtFirst | components/mdns/mdns_responder.c:1364-1409 | an update that fails leaves exactly the names before the first repetition, the last one first |
| Queries.Search.AddPtr | components/mdns/mdns_querier.c:671-708 | the results after a PTR record: merged by instance, or a new first result if there is room |
| Queries.Search.AddSrv | components/mdns/mdns_querier.c:629-666 | the results after an SRV record: merged by host, or a new first result if there is room |
| Queries.Search.AddTxt | components/mdns/mdns_querier.c:492-537 | the results after a TXT record: only the first one of a pair is kept |
| Queries.Search.AddIp | components/mdns/mdns_querier.c:571-624 | the address joins the first result of its host on its pair (of its pair, in a search for addresses) as Queries.HostTakesAddress and PairTakesAddress say, or makes a new result |
| Queries.HostTakesAddress | components/mdns/mdns_querier.c:612-620 | in a search for services an address that is new joins at the front of the first result of its host, exactly it, and nothing else changes but the lifetime |
| Queries.PairTakesAddress | components/mdns/mdns_querier.c:579-591 | in a search for addresses the first result of the pair takes it |
| Queries.PairTakesItems | components/mdns/mdns_querier.c:492-537 | TXT items go to the first result of the pair, which keeps those it has |
| Queries.StrangeAddress | components/mdns/mdns_querier.c:571-624 | any other address changes nothing |
| Queries.RecordIsTaken | components/mdns/mdns_querier.c:492-708 | every record changes exactly the first result it is for, and there only what it says, or becomes a new first result with exactly its own data if there is room, or changes nothing |
| Queries.AddedOk | components/mdns/mdns_querier.c:492-708 | any record keeps the limit, and every result stays what the records for it make it |
| Queries.SearchesStayInOrder | components/mdns/mdns_querier.c:492-708 | over every sequence of records: never more results than wanted; the addresses of a result are exactly those that came for it, each once, its items the first that came, its lifetime the least, and all else is from the record that made it |
| Queries.InstancesStayApart | components/mdns/mdns_querier.c:671-708 | a search fed by PTR records never lists an instance twice on one pair |
| Browsing.Browse.ResultAddIp | components/mdns/mdns_browser.c:315-374 | the results and the list to report after an address record |
| Browsing.Browse.ResultAddTxt | components/mdns/mdns_browser.c:394-490 | the results and the list to report after a TXT record |
| Browsing.Browse.ResultAddSrv | components/mdns/mdns_browser.c:513-590 | the results and the list to report after an SRV record, addresses known for the host copied |
| Browsing.IpStored | components/mdns/mdns_browser.c:315-374 | an address goes in front of those of the first result of its host and pair that lacks it, and of no other |
| Browsing.IpIgnored | components/mdns/mdns_browser.c:315-374 | if every result of the host has the address already, or there is none, nothing changes and nothing is reported |
| Browsing.TxtStored | components/mdns/mdns_browser.c:394-490 | TXT items replace those of the first result of that name, and nothing else changes but the lifetime |
| Browsing.SrvStored | components/mdns/mdns_browser.c:513-590 | an SRV record changes host and port if the host is another one; a result without addresses takes those of the first result of the new host and the same protocol that has any |
| Browsing.NewStored | components/mdns/mdns_browser.c:394-590 | a record without a result becomes the first one, with its own data, and is reported |
| Browsing.Browse.BrowseSync | components/mdns/mdns_browser.c:59-75 | reported results that have said goodbye are taken out, the list to report is empty |
| Browsing.SyncClearsGoodbyes | components/mdns/mdns_browser.c:59-75 | after a report nobody is left who has said goodbye, and nobody else has gone |
| Browsing.BrowsesStayInOrder | components/mdns/mdns_browser.c:315-590 | over every sequence of records and reports: no two results of a pair with the same instance, service and protocol ignoring case, unless one is blank |
| Browsing.ReportedExactly | components/mdns/mdns_browser.c:315-590 | every new result and every change of one is to be reported, for every step, but for TXT items that differ while the comparison takes them for the same |
| Browsing.ChangesAreSeen | components/mdns/mdns_browser.c:376-452 | between TXT lists that repeat no key the comparison sees a change exactly when the items are not the same, in whatever order |
| Browsing.SecondReportDangles | components/mdns/mdns_browser.c:59-75 | when two packets are read before the first report is made, the second report names a freed result exactly when the first names it, too, and it has said goodbye |
| Form.UrlDecode | src/web_server.c:228-251 | for every input at most dst_size - 1 bytes and the NUL are written, and they are the specified decoding |
| Form.DecodesWhatIsEncoded | src/web_server.c:228-251 | any encoding that writes %, &, = and + as %XX decodes to the original value, cut off at the room there is |
| Form.ExtractField | src/web_server.c:255-274 | whether the field was found, and the decoded value with its NUL |
| Form.FindsFirstEnding | src/web_server.c:255-274 | in any form the value found is that of the first field whose name ends with the name asked for |
| Form.FindsTheField | src/web_server.c:255-274 | the field of that name itself is found if and only if no field before it has a name with the same ending |
| Form.FormRoundTrip | src/web_server.c:285-301 | extracting s, p and o from "s=..&p=..&o=.." returns the original values |
| ScanList.EscapeSsid | src/wifi_manager.c:124-135 | the escaped text of an SSID; its 96-byte buffer is never full |
| ScanList.UpdateScanCache | src/wifi_manager.c:76-146 | the buffer of 2048 bytes holds the text of all listed access points: neither truncation nor the 96-byte guard leaves anything out |
| ScanList.TextFits | src/wifi_manager.c:107-144 | for at most 20 access points with SSIDs of at most 32 bytes the text has at most 2021 characters |
| ScanList.EachOnce | src/wifi_manager.c:111-121 | every SSID that is not empty is listed once, by the access point that has it first |
| ScanList.ListRoundTrip | src/wifi_manager.c:107-144 | an independent reader gets back the listed access points in order, each SSID without its control characters |
| ScanList.PageShowsEachOnce | src/wifi_manager.c:76-146 | what the page reads is every distinct SSID that is not empty, once |

## Left out

- append_answer: which records an answer list turns into (host lookups, delegated hosts, lifetimes of goodbyes) is not modelled; packets are dispatched from records that are given.
- append_subtype_ptr_record, append_sdptr_record: the record writers are modelled by owner and data; the unchecked length of the owner in append_sdptr_record is not. Packets with subtype records are framed (`PacketFraming.DispatchedReadsBack`), but the condition on the message speaks of names without a subtype only.
- PacketNames.ClearMessageReadsBack: takes the bytes behind the header to be zero when a packet is begun, because the search of append_fqdn looks at the byte behind the write index, which the packet before may have left there; names with a subtype are not covered.
- Rename.MangleName: says nothing about a name numbered with the largest int, because the addition overflows there.
- Reverse queries (dotted names, arpa records), debug output, the console and the hooks for failed allocations.
- One-shot queries: the questions repeated in a reply to another port, its destination, and the delay of shared replies.
- mdns_parse_packet beyond the walk and the removal of questions: which questions and records it takes for ours, conflicts being acted upon, updates of results from SRV records of a PTR search.
- Queries.Search.AddTxt: TXT items are a value here; that a second TXT record is freed is not modelled.
- Browsing.Browse.BrowseSync: the notifier is not modelled.
- Form.UrlDecode: strings are byte sequences with their length; that the body is cut at 383 bytes is not modelled.
- Pcb.Names: services and hosts are identified by their addresses; that questions borrow the strings of a service that may be freed is not modelled, so the removal theorem speaks of answers for services and of questions by type and protocol only.
- Number of announcements: any packet handled while announcing counts as one, so no number is claimed.
- mdns_priv_send_bye, delegated hosts, adding and removing services themselves: one-step changes of lists.
- Sockets, tasks, locks, netif events, the WiFi driver, LED, sensor, telnet and update code: only readiness, a clock and a list of actions are kept.
