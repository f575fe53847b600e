# Router firmware: verified models

Dafny models of the parts of the WAG354G firmware that carry the most logic, with proofs about them:

- **dnsmasq record cache** (`CacheRecords`, `CacheRuns`, `CacheTheorems`, `CacheTransactions`, `CacheExpiry`,
  `CacheHistory`, `CacheLookups`, `Cache`). One doubly linked list holds ordinary slots, /etc/hosts records and DHCP records; walks move
  and free the nodes they stand on. The class `Cache.Cache` is that list on the heap, with a ghost sequence of its nodes;
  each of its methods is proved to compute a function on the sequence of records, and the theorems are about those
  functions: lookup and insert refine a multimap, a transaction stores everything or nothing, and every reachable state
  is well formed.
- **DNS on the wire** (`DnsNames`, `DnsPackets`, `DnsCompare`, `DnsOwners`). The name decoder is proved against section
  4.1.4 of RFC 1035 on every packet, cyclic pointers included, in both its modes; writer and reader, and the two parsers of
  the question section, agree; the owner of an answer decodes to its question.
- **Between the wire and the cache** (`DnsRecords`, `DnsSection`, `DnsExtract`, `DnsHistory` for packets that arrive;
  `DnsAnswers`, `DnsReplies`, `DnsReplySafety`, `DnsReplyRecords`, `DnsReplyTtl`, `DnsReplyData`, `DnsReplyWhen`,
  `DnsReplyFound`, `DnsBuffers`, `DnsBufferLimits` for requests that are answered). extract_addresses and answer_request on the bytes of a packet and the heap of the cache: a
  section is stored as one transaction, a reply is the request followed by exactly what the cache knows about each of its
  questions, addresses, names and TTLs are followed from the bytes of the packet that brought them to the bytes of the
  reply, it is determined when there is a reply at all, and how much memory no reply leaves.
- **Query forwarding** (`Forwarding`, `ForwardingSafety`, `ForwardingExact`, `Forwarder`, `ServerLists`). The table of pending queries is a
  state machine whose steps are client queries, upstream replies and server reloads; sends, the clock, random numbers and
  memory are its environment. Safety is proved over whole runs, with a log of allocations and deliveries.
- **MD5 streaming** (`Md5Words`, `Md5Block`, `Md5Stream`, `Md5`), **crontab compilation** (`CronBits`, `CronText`, `CronScanner`,
  `Cron`, `CronTick`), the **NTP phase lock** envelopes (`Envelope`, `PhaseLock`), **firewall rule placement**
  (`Firewall`), **base64** between two programs (`Base64`) and the **glob matcher** (`Glob`).

Code that changes things step by step is a class or a method with loops, proved against a specification function; what is
promised is then proved about that function. `Options`, `Bytes` and `Arithmetic` hold what several modules share.
`dafny verify dfyconfig.toml` checks the whole project.

## What the proofs found

- A TTL so large that `now + ttl` passes the end of 32-bit time makes a record count as expired at once. The next insert
  of the same transaction then frees it, and its slot, still marked new, is the one that insert looks at, so that a
  shortage is reported although slots are free (`CacheExpiry.WrapReportsShortage`). `CacheTransactions.FailsExactly` says
  for every state when an insert fails, `CacheExpiry.AllOrNothing` for all TTLs what a transaction leaves.
- A packet that turns out bad in its answer section returns without ending the transaction. After a failed insert what was
  added before stays (`DnsHistory.BadPacketPartial` gives such a packet of 85 bytes); `DnsHistory.BadPacketExactly` gives
  the condition.
- answer_request looks at its limit only after a record has been written, so a record may end behind the limit. Everything
  stays inside the memory if and only if the longest name of an address, and the fixed mail exchanger, fit behind the limit
  (`DnsBufferLimits.SafeExactly`). The program's own buffer has room for names of MAXDNAME - 4 characters there, and
  extract_name admits names of MAXDNAME - 2 (`DnsBufferLimits.ProgramBuffer`); `DnsBufferLimits.LongNameOverruns` is the
  case that is missing, a request of 512 bytes.
- An upstream reply with id 0 finds a table entry that is not in use, if there is one. It is delivered to the last client
  of that entry (`ForwardingSafety.ZeroIdRepeats`), and since the entry keeps its server across reloads, a good one can make
  a server that is gone the last good server (`ForwardingSafety.ZeroIdStrays`, `ForwardingSafety.ReloadLeavesStray`).
  `ForwardingSafety.ReplySound` says exactly which replies are harmless.
- The lookup of process_lease is made at time 0, so a name held by a record that has expired since still refuses a lease
  (`CacheLookups.LeaseYields`); and a lease that was once infinite stays so (`CacheLookups.LeaseRenews`).
- Decoding the root name writes one byte in front of the caller's buffer (`DnsNames.ExtractName`, outcome `Underrun`).
- Answers are written behind the question section, also when the name of a question goes on there. Then the owner of the
  answer leads back to itself and never decodes (`DnsOwners.OwnerCycles`; `DnsOwners.OwnerOverwritten` is such a request of
  21 bytes). A name that is read wholly below the answers is safe (`DnsOwners.OwnerIsQuestion`), and in a request that ends
  with its questions every name is (`DnsReplySafety.OwnersDecode`). `DnsOwners.DecodesAlways` says exactly when an owner
  decodes whatever is written behind it. The limit of 255 jumps plays no part: a request of 512 bytes has no room for so
  many (`DnsOwners.JumpsFit`).
- The comparing mode of the decoder accepts every name that continues after the owner's labels (`DnsCompare.AgreesIs`), so
  a CNAME is also resolved by records of such owners; and it reads names that are too long to be extracted
  (`DnsCompare.CompareName`). It compares a signed char with an unsigned one: a name with a character from 128 on does not
  agree even with itself (`DnsCompare.AccentDiffers`), and is not found behind a CNAME.
- The clear at the start of each crontab field covers one bit more than the field. For hours this is the first bit of the
  days of the month; it does no harm only because that field is read later (`Cron.Entry.LoadFields`).
- Where comments and code disagree the code is followed: `search` in the phase lock finds the smallest slope for sign 0 and
  the largest for sign 1; pass 3 keeps the candidate of least slope for `save_max`, as pass 2 does for `save_min`.
- A crontab step so large that the element counter passes the largest int makes the counter negative, and the line is
  refused although all it names is within bounds (`CronText.BigStepRefused`); `CronText.LineBack` has the condition.
- In crontab ranges `Sun` is 0, so `Sat-Sun` names no day; text between a range and the next blank is skipped.
- Two default policies in one firewall chain are decided by which came first (`Firewall.DefaultOrderMatters`).

## Model

| member | source | states |
|---|---|---|
| `Cache.Cache.constructor` | router/dnsmasq/cache.c:23-46 | cache_init yields a valid list of exactly `size` ordinary records and a pool of size/10 long-name buffers |
| `Cache.Cache.Link` | router/dnsmasq/cache.c:69-78 | a node put at the head keeps the list doubly linked, in front of all others |
| `Cache.Cache.Unlink` | router/dnsmasq/cache.c:81-92 | removing any node leaves the other nodes linked in their order |
| `Cache.Cache.Free` | router/dnsmasq/cache.c:50-66 | the node moves to the tail without its keys, and its long-name buffer goes to the free list |
| `Cache.Cache.Walk` | router/dnsmasq/cache.c:152-177 | a loop that promotes or frees the node it stands on visits each node once and leaves the list, and the free buffers, as the pure meaning of the walk says |
| `Cache.Cache.StartInsert` | router/dnsmasq/cache.c:96-102 | the new mark is taken off every record and nothing else changes |
| `Cache.Cache.EndInsert` | router/dnsmasq/cache.c:106-121 | after a failure every record marked new is freed, otherwise nothing changes |
| `Cache.Cache.RotateToOrdinary` | router/dnsmasq/cache.c:180-198 | the victim loop ends, by the number of hosts and DHCP records behind the last ordinary one, with that ordinary record last and the order of the others kept |
| `Cache.Cache.TakeBuffer` | router/dnsmasq/cache.c:203-219 | a long name takes a free buffer, or allocates one while the bound of size/10 allows it, or fails |
| `Cache.Cache.Insert` | router/dnsmasq/cache.c:128-277 | the heap list after cache_insert, and whether it failed, are those of the pure insert; validity is kept |
| `Cache.Cache.Find` | router/dnsmasq/cache.c:279-376 | a first call sweeps the list and returns its head if it hits; an iterating call returns the next node if it hits and changes nothing |
| `Cache.Cache.FindAll` | router/dnsmasq/cache.c:279-376 | a first call and iterating calls together return every matching fresh record exactly as often as it is stored, and nothing else |
| `Cache.Cache.Clear` | router/dnsmasq/cache.c:384-401 | hosts records go, DHCP records stay, ordinary records are emptied and give back their buffers; validity is kept |
| `Cache.Cache.AddHost` | router/dnsmasq/cache.c:468-476 | a hosts record is added at the head and every other record is kept |
| `Cache.Cache.ClearDhcp` | router/dnsmasq/cache.c:484-500 | exactly the DHCP records leave the list in their order, and the nodes returned are the ones that left: distinct, from the old list, outside the new one, and all of them by number |
| `Cache.Cache.ProcessLease` | router/dnsmasq/dhcp.c:202-261 | a lease is refused, updates an older lease, or is added at the head, the last if and only if nobody holds the name, or only as not existing, and a spare node or memory is there |
| `CacheLookups.LeaseAdds` | router/dnsmasq/dhcp.c:202-261 | with memory, a lease for a name that nobody holds is found by every later lookup of its name until it ends, and of its address if and only if it is canonical, with the address of the lease; all else is found as before, and an entry that the name does not exist is gone |
| `CacheLookups.LeaseRenews` | router/dnsmasq/dhcp.c:222-231 | a name held by an earlier lease is found with the new address and time if and only if the new lease is later or infinite |
| `CacheLookups.LeaseYields` | router/dnsmasq/dhcp.c:207-221 | a name held by /etc/hosts or a positive answer is found as before |
| `CacheLookups.HostAdds` | router/dnsmasq/cache.c:450-476 | a name of /etc/hosts is found for ever by name, and by address if and only if it is canonical, in its family, with its address; all else as before |
| `CacheLookups.ReloadForgets` | router/dnsmasq/cache.c:384-401 | after the clearing loop leases are found as before, and nothing else |
| `CacheLookups.LeasesForgotten` | router/dnsmasq/cache.c:484-500 | after clearing DHCP no lease is found, and everything else as before |
| `CacheLookups.HitsCarries` | router/dnsmasq/cache.c:279-376 | an ordinary record is found by the query for a key if and only if it is filed under that key |
| `CacheLookups.OneTarget` | router/dnsmasq/cache.c:279-376 | no record is found by two different names, or two different addresses |
| `CacheLookups.InsertedIsFound` | router/dnsmasq/cache.c:128-277 | what was inserted is found by the name or address it was inserted for, in its family, until it expires, and by nothing else |
| `CacheTheorems.LookupRefines` | router/dnsmasq/cache.c:279-376 | after a lookup the hits are a prefix of the list, and that prefix is the bag of matching fresh records |
| `CacheTheorems.LookupHarmless` | router/dnsmasq/cache.c:292-312 | a lookup changes no answer: from then on every query finds each record as often as it would have without it |
| `CacheTheorems.InsertRefines` | router/dnsmasq/cache.c:128-277 | after a successful insert the key holds this transaction's records and the new one; hosts and DHCP records are untouched; only the victim's key loses unexpired records, and it loses all |
| `CacheTheorems.VictimFacts` | router/dnsmasq/cache.c:180-224 | the slot taken is an ordinary record that does not carry the key being inserted |
| `CacheTransactions.FailsExactly` | router/dnsmasq/cache.c:152-224 | for every state: an insert fails if and only if the record whose slot it would take (the last one its purge releases, else the last ordinary one) is marked new, or the name is long and no buffer is left; within 32-bit time that mark means that every ordinary record belongs to the transaction |
| `CacheTransactions.KeepsTransactionExactly` | router/dnsmasq/cache.c:159-162 | a successful insert keeps the earlier records of its transaction if and only if none of them already counts as expired |
| `CacheExpiry.AllOrNothing` | router/dnsmasq/cache.c:96-121 | for all TTLs: without a failure one record is added for each request, and all of them are in the cache if and only if every TTL but the last stays within 32-bit time; after a failure nothing can be found that was not there before, and nothing more often |
| `CacheTransactions.RunInTransaction` | router/dnsmasq/cache.c:96-102 | with TTLs within 32-bit time every insert of a transaction finds the transaction's records first, sharing no key with older ones, none expired |
| `CacheExpiry.FailureKeeps` | router/dnsmasq/cache.c:180-224 | without the end of the transaction a failure leaves nothing of it if and only if every TTL of what was added leaves 32-bit time |
| `CacheExpiry.WrapReportsShortage` | router/dnsmasq/cache.c:159-189 | a cache of three slots, reached by one insert with a wrapping TTL, in which the next insert, of anything, reports a shortage although two slots are free |
| `CacheRuns.InsertInv` | router/dnsmasq/cache.c:128-277 | an insert keeps the number of ordinary records, the soundness of the buffers and the shape of every record |
| `CacheRuns.UsesArrange` | router/dnsmasq/cache.c:59-65 | a walk conserves, for every buffer, the number of records holding it plus its places on the free list |
| `CacheHistory.ReachableInv` | router/dnsmasq/cache.c:23-121 | every state reached by any sequence of operations has exactly `size` ordinary records, no buffer with two holders, and at most size/10 buffers allocated |
| `CacheHistory.ReachableProvenance` | router/dnsmasq/cache.c:263-276 | every ordinary record that can be found was stored by an earlier insert of the run, and holds what that insert asked for |
| `CacheHistory.TtlHonest` | router/dnsmasq/rfc1035.c:666-674 | an ordinary record found at t was inserted at some t0 with TTL n, t < t0 + n, and is answered with t0 + n - t |
| `DnsNames.ExtractName` | router/dnsmasq/rfc1035.c:15-77 | total on every packet: returns the lower-case dotted text that section 4.1.4 of RFC 1035 defines whenever it exists within 255 jumps, the packet and MAXDNAME, stops just past the encoding, and otherwise reports a bad packet |
| `DnsNames.SpellsUnique` | router/dnsmasq/rfc1035.c:23-66 | a packet spells at most one name at an offset, by one number of jumps |
| `DnsNames.LowerSame` | router/dnsmasq/rfc1035.c:50-55 | two bytes fold to the same if and only if they are equal or the same letter in either case |
| `DnsPackets.SkipQuestions` | router/dnsmasq/rfc1035.c:160-192 | the loop computes the recursive skipping of questions, with every bound check |
| `DnsPackets.ParsersAgree` | router/dnsmasq/rfc1035.c:160-192 | whenever the decoder succeeds on every question, skip_questions returns the offset reached after the last, or reports a bad packet if that is beyond its end |
| `DnsPackets.Packet.AddTextRecord` | router/dnsmasq/rfc1035.c:206-238 | exactly the bytes of the record are written, the length behind its placeholder, and no other byte changes |
| `DnsPackets.PrintThenParse` | router/dnsmasq/rfc1035.c:206-238 | the decoder reads the written name back and stops exactly RDLENGTH bytes on |
| `DnsOwners.OwnerIsQuestion` | router/dnsmasq/rfc1035.c:213-214 | in a reply within the limit of 512 bytes the owner of any record returns the question's name, when that name is read below the place where the answers start |
| `DnsOwners.NothingBehind` | router/dnsmasq/rfc1035.c:23-66 | in a request that ends with its questions every name is read below that place |
| `DnsOwners.JumpsFit` | router/dnsmasq/rfc1035.c:25-46 | a name read below a limit of at most 512 goes through at most limit / 2 + 2 pointers |
| `DnsOwners.OwnerCycles` | router/dnsmasq/rfc1035.c:213-214 | a name that goes on at the very place where the record is written makes its owner undecodable, whatever the record |
| `DnsOwners.OwnerOverwritten` | router/dnsmasq/rfc1035.c:213-214 | a well-formed request of 21 bytes that every answer overwrites |
| `DnsOwners.DecodesAlways` | router/dnsmasq/rfc1035.c:206-238 | an owner decodes to a name for every record of a given length if and only if it does when only the owner is written, and then nothing of the rest of the record is read |
| `DnsCompare.CompareName` | router/dnsmasq/rfc1035.c:15-77 | the comparing mode on every packet: it reads the name of any length while the place in the compared name stays within MAXDNAME, stops just past the encoding, and finds no difference if and only if the labels, each with a dot, begin the name with a dot behind it and all their bytes are below 128 |
| `DnsCompare.AgreesIs` | router/dnsmasq/rfc1035.c:54-61 | that is: the owner's text is of seven bits, and the names are equal or the name goes on with a dot after that text |
| `DnsCompare.AccentDiffers` | router/dnsmasq/rfc1035.c:54-55 | a name of one byte from 128 on that does not agree with itself |
| `DnsRecords.RequestsAreStated` | router/dnsmasq/rfc1035.c:358-473 | only what the section states is stored, and all of it unless the packet turns out bad: a record under its own name with its TTL, or under an alias that leads to it with the smaller of the two TTLs |
| `DnsHistory.TtlEndToEnd` | router/dnsmasq/rfc1035.c:358-473 | in every history of packets, negative answers, lookups, reloads and leases, a record that answers at t, a positive one or the name of an address, was stated with TTL n by the bytes of a packet that arrived at t0, t < t0 + n, and exactly t0 + n - t is left |
| `DnsHistory.PacketRun` | router/dnsmasq/rfc1035.c:333-476 | as operations of the cache a packet is a start, its inserts and, unless it is bad, an end, and leaves the cache where extract_addresses leaves it |
| `DnsHistory.BadPacketExactly` | router/dnsmasq/rfc1035.c:360-371 | a packet that turns out bad after a failed insert leaves nothing of its transaction if and only if every TTL of what was added leaves 32-bit time |
| `DnsHistory.BadPacketPartial` | router/dnsmasq/rfc1035.c:360-371 | a packet of 85 bytes, in any memory, of which a record stays in the cache although an insert has failed |
| `DnsExtract.ExtractAddresses` | router/dnsmasq/rfc1035.c:333-476 | on every packet: the cache afterwards is the transaction of the section's requests, with its rollback on failure if the packet was read to its end, and without one if it turned out bad |
| `DnsExtract.ExtractOne` | router/dnsmasq/rfc1035.c:358-473 | one turn: owner, type, class, TTL and length are read from the bytes, and what the record asks for is stored |
| `DnsExtract.Chase` | router/dnsmasq/rfc1035.c:400-471 | the inner loop goes over the section again from its start and stores, in order, what every record whose owner agrees with the alias's target states under the alias |
| `DnsReplies.AnswerRequest` | router/dnsmasq/rfc1035.c:560-812 | with any buffer: reply length, authority, name error and number of answers, the cache and every byte of the packet are those of the stages of its questions in turn, or the request is given up, or a record would leave the buffer; nothing in front of the answers is touched |
| `DnsReplies.AnswerQuestion` | router/dnsmasq/rfc1035.c:599-795 | one question of any type: filter, names for addresses with the faked ones for private networks, addresses of both kinds, mail exchangers |
| `DnsReplyRecords.ReplyExact` | router/dnsmasq/rfc1035.c:560-812 | every reply is the request up to the end of its questions, then for each question in turn exactly its answers, and nothing else: every fresh record that matched in the cache when the request arrived, as often as it was stored, and the texts that the settings prescribe |
| `DnsReplyRecords.QuestionExact` | router/dnsmasq/rfc1035.c:599-795 | the same for one question, whatever was looked up before it |
| `DnsReplyTtl.ReplyTtl` | router/dnsmasq/rfc1035.c:666-709 | in every history, the TTL field of each record in the bytes of every reply sent at t is 0 for local knowledge and fixed texts, and otherwise t0 + n - t for a record that the bytes of a packet that arrived at t0 stated with TTL n, with t < t0 + n |
| `DnsReplyData.ReplyData` | router/dnsmasq/rfc1035.c:560-812 | in every history, each record in the bytes of every reply has the owner, type, class, TTL, length and data of what it comes from; and what was learned from a packet has the type and the very data bytes of a record of that packet, its TTL less the time since, and the name asked for, or an alias of it, as owner |
| `DnsReplyData.AddressReadBack` | router/dnsmasq/rfc1035.c:698-704 | the four or sixteen bytes of data of an address record are the address of the record found |
| `DnsReplyData.RecordFields` | router/dnsmasq/rfc1035.c:692-703 | the other fields of a record written from the cache, by their numbers |
| `DnsReplyData.TextIs` | router/dnsmasq/rfc1035.c:206-238 | the data of a fixed text: its preference and its name |
| `DnsReplyData.TextFields` | router/dnsmasq/rfc1035.c:206-238 | its other fields, the TTL being 0 |
| `DnsReplyData.SectionAt` | router/dnsmasq/rfc1035.c:358-473 | each record of a section is where the skipping of names and lengths says, and its owner, class, TTL, type, address and name are those of the bytes there |
| `DnsReplyData.SpeltBack` | router/dnsmasq/rfc1035.c:613-637 | the name that a reply gives for an address decodes to the name in the packet that gave it |
| `DnsReplyData.NamesApart` | router/dnsmasq/rfc1035.c:15-77 | names with the same text are the same, label by label |
| `DnsReplyWhen.AnsweredExactly` | router/dnsmasq/rfc1035.c:560-812 | a request that ends with its questions is answered if and only if each can be read, has an answer in the cache or by the settings and is no wildcard about foreign data, and the answers together fit the limit; its length, authority and name error are then exactly what is known of its names |
| `DnsReplyWhen.QuestionOutcome` | router/dnsmasq/rfc1035.c:599-795 | the same for one question |
| `DnsReplyFound.StatedIsFound` | router/dnsmasq/rfc1035.c:333-476 | after a packet read to its end without a failed insert all that its bytes stated is in the cache, and is found until it expires |
| `DnsReplyFound.SoughtIsGiven` | router/dnsmasq/rfc1035.c:599-795 | every fresh positive record that a question seeks is among its answers |
| `DnsReplyFound.AddressIsStated` | router/dnsmasq/rfc1035.c:379-386 | an address record states its address, positively, for its owner, with its TTL and family |
| `DnsReplyFound.AliasIsStated` | router/dnsmasq/rfc1035.c:400-471 | an alias states the addresses of its target, with the smaller of the two TTLs |
| `DnsReplyFound.NameIsStated` | router/dnsmasq/rfc1035.c:387-399 | a pointer record states its name for the address that its owner stands for |
| `DnsReplySafety.OwnersDecode` | router/dnsmasq/rfc1035.c:560-812 | in every reply to a request that ends with its questions the questions stay, each record is where it was written, and its owner decodes to the name of the question it answers |
| `DnsBuffers.OverExactly` | router/dnsmasq/rfc1035.c:666-711 | the answers from one lookup leave the memory if and only if some record that is written starts within the limit and ends behind the memory |
| `DnsBuffers.StaysExactly` | router/dnsmasq/rfc1035.c:666-711 | wherever they may start, they stay inside if and only if each record that can still start within the limit fits behind it |
| `DnsBuffers.RepliesInside` | router/dnsmasq/rfc1035.c:560-812 | if every record that the cache and the settings can give fits behind the limit, no request is answered past the memory |
| `DnsBufferLimits.SafeExactly` | router/dnsmasq/rfc1035.c:560-812 | for every memory size: no request to any cache reached by operations is answered past the memory if and only if the longest name of an address and the fixed mail exchanger fit behind the limit of 512 bytes |
| `DnsBufferLimits.LongNameOverruns` | router/dnsmasq/rfc1035.c:629-637 | otherwise: a cache that one packet has filled, and a request of 512 bytes whose answer leaves the memory |
| `DnsBufferLimits.ExchangerOverruns` | router/dnsmasq/rfc1035.c:776-793 | the same for a fixed mail exchanger that does not fit |
| `DnsBufferLimits.ProgramBuffer` | router/dnsmasq/dnsmasq.c:66 | in the buffer the program allocates every request is safe if and only if names of addresses have at most MAXDNAME - 4 characters |
| `DnsAnswers.WriteAll` | router/dnsmasq/rfc1035.c:666-711 | of what was found every record that is not negative is written, in order, and counted; given up exactly where a wildcard question meets foreign data or a record passes the limit, and stopped where one would leave the buffer; authority and name error as the records say |
| `DnsAnswers.EndsFine` | router/dnsmasq/rfc1035.c:666-711 | the request goes on if and only if nothing found is foreign to a wildcard question and all records fit the room |
| `DnsAnswers.TtlReadBack` | router/dnsmasq/rfc1035.c:698-703 | the TTL field of every record written from the cache reads back as what is left of its TTL |
| `DnsAnswers.TtlFits` | router/dnsmasq/rfc1035.c:669-672 | for a fresh record that is the TTL itself |
| `Forwarding.GetNewShape` | router/dnsmasq/forward.c:237-287 | a live entry aged TIMEOUT or less is never recycled, and the table never exceeds FTABSIZ + 1 entries |
| `Forwarding.Best` | router/dnsmasq/forward.c:69-103 | the chosen server covers the name with a domain that no covering server's domain exceeds in length; none is chosen only if none covers it |
| `Forwarding.EndsWithIs` | router/dnsmasq/forward.c:73-76 | a domain covers a name if and only if the name is something followed by the domain |
| `Forwarding.FirstSent` | router/dnsmasq/forward.c:141-187 | the first server from the start on that is of the domain, has an address of its own and takes the packet; none only if no server of the list does |
| `ForwardingSafety.RunSafe` | router/dnsmasq/forward.c:37-330 | in every state of every run of queries, harmless replies and reloads: live ids nonzero and distinct, live (client, id) pairs distinct, every delivery to the client and id that allocated its upstream id and at most once, all server pointers in the current list, each query waiting in its own domain, at most 51 entries |
| `ForwardingSafety.StepInv` | router/dnsmasq/forward.c:37-235 | every query, reply and reload keeps that invariant |
| `ForwardingSafety.ReloadInv` | router/dnsmasq/network.c:232-233 | cancelling all queries keeps the pointers of live queries inside the new list |
| `ForwardingSafety.ZeroIdRepeats` | router/dnsmasq/forward.c:213-230 | a reply with id 0 after another reply is delivered a second time for the same allocation |
| `ForwardingSafety.ReplySound` | router/dnsmasq/forward.c:213-230 | a reply keeps the deliveries sound, and the whole invariant, if and only if its id is not 0 or every entry of the table is in use |
| `ForwardingSafety.ZeroIdStrays` | router/dnsmasq/forward.c:215-218 | a harmful reply keeps the last good server in the list if and only if it is not good, or the entry's server has a domain or is in the list |
| `ForwardingSafety.ReloadLeavesStray` | router/dnsmasq/network.c:232-233 | a reload that drops the server of the first entry leaves such an entry behind |
| `ForwardingSafety.SomeIdFree` | router/dnsmasq/forward.c:316-330 | some nonzero 16-bit id is always free, so drawing ids can end |
| `Forwarder.TurnNext` | router/dnsmasq/forward.c:181-186 | going on from server to server visits each server once, all different, and then comes back to the first |
| `ForwardingExact.GoesToFirst` | router/dnsmasq/forward.c:137-192 | one round from a position on reaches the first server that takes the query, or none takes it |
| `ForwardingExact.FullExactly` | router/dnsmasq/forward.c:237-287 | no entry is given if and only if all are in use and aged TIMEOUT or less and the table may not or cannot grow |
| `Forwarder.Forwarder.ChooseServer` | router/dnsmasq/forward.c:69-103 | the loop with its length of best match computes the best server |
| `Forwarder.Forwarder.SendLoop` | router/dnsmasq/forward.c:137-192 | the loop ends; it sends to the first server that accepts, of the chosen domain, or releases the entry |
| `Forwarder.Forwarder.ForwardQuery` | router/dnsmasq/forward.c:37-199 | keeps the invariant; a query that waits at the server at position j goes to the first of positions j+1, j+2, … round to j that is of its domain, has its own address and takes it; a new one starts at the first server if strict or of a domain, and otherwise at the last good one; none is sent only if none takes it; the entry, the log, the last good server and the header's id are then exactly so, and without recursion, servers or room, or with a literal answer, nothing changes |
| `Forwarder.Forwarder.ReplyQuery` | router/dnsmasq/forward.c:202-235 | the first entry with the reply's id is delivered under its original id and released, a good reply from a server without a domain makes that the last good one, and nothing else changes; the invariant is kept if and only if the reply is harmless |
| `Forwarder.Forwarder.GetNewFrec` | router/dnsmasq/forward.c:237-287 | the loop over the table computes the entry to use: a free one, the oldest one past the timeout, or a new one |
| `Forwarder.Forwarder.GetId` | router/dnsmasq/forward.c:316-330 | returns a nonzero id that no entry uses |
| `Forwarder.Forwarder.NewServers` | router/dnsmasq/network.c:223-233 | every entry is cancelled before the new list is used, and the invariant holds for the new list |
| `ServerLists.ReloadServers` | router/dnsmasq/network.c:312-415 | lines reuse the nodes of old resolv.conf servers and then get new ones as far as malloc works for them; command-line servers are kept unchanged; the list has no node twice |
| `ServerLists.AllHeard` | router/dnsmasq/network.c:384-390 | with memory for the rest, or enough old nodes, no line is lost |
| `ServerLists.CheckServers` | router/dnsmasq/network.c:223-310 | exactly the unusable servers are dropped and the list is reversed |
| `ServerLists.Reload` | router/dnsmasq/network.c:223-415 | the two reversals cancel: usable command-line servers in their order, then usable servers in the order of the file, all in distinct cells; and the next reload will keep the former and none of the latter |
| `ServerLists.LineServes` | router/dnsmasq/network.c:394-401 | a server of the file takes exactly the queries without a domain that can be sent, at the address of its line |
| `Md5Block.MixIsMacro` | router/ipupdate/md5.c:240-243 | the rewritten macros compute the functions F, G, H and I of RFC 1321 |
| `Md5Words.RotlIs` | router/ipupdate/md5.c:296 | the macro for rotation is the circular left shift: times 2^s modulo 2^32, plus what is carried out above |
| `Md5Words.GatedAt` | router/ipupdate/md5.c:240-243 | every bit of and, or, exclusive-or and not is that of the bits of the operands |
| `Md5Words.BitsAre` | router/ipupdate/md5.c:240-243 | bit i of a word is its quotient by 2^i modulo 2 |
| `Md5Block.OpIsSum` | router/ipupdate/md5.c:284-333 | one operation is b plus the circular shift of the sum of a, the mixing function, the word and the constant, modulo 2^32 |
| `Md5Block.Round1` | router/ipupdate/md5.c:304-322 | the unrolled first round with renamed registers is steps 1 to 16 of section 3.4 of RFC 1321 |
| `Md5Block.Round2` | router/ipupdate/md5.c:335-351 | the second round is steps 17 to 32 |
| `Md5Block.Round3` | router/ipupdate/md5.c:353-369 | the third round is steps 33 to 48 |
| `Md5Block.Round4` | router/ipupdate/md5.c:371-387 | the fourth round is steps 49 to 64 |
| `Md5Stream.CountMore` | router/ipupdate/md5.c:263-265 | the two-word counter with its carry holds the byte count modulo 2^64 |
| `Md5Stream.LengthField` | router/ipupdate/md5.c:107-109 | the two shifted words are 8 times the byte count modulo 2^64 |
| `Md5Stream.PaddedIs` | router/ipupdate/md5.c:94-117 | the padded message is the message, a byte 80, the fewest zeros, and the length in bits in eight bytes, the lowest first |
| `Md5Stream.WordsBack` | router/ipupdate/md5.c:284-292 | a word that lies in a block low-order byte first is the word it is read as |
| `Md5Stream.StartBytes` | router/ipupdate/md5.c:61-72 | the registers start as the bytes of section 3.3 of RFC 1321 |
| `Md5.AbsorbAll` | router/ipupdate/md5.c:269-394 | the block loop is the fold of the block function over the data |
| `Md5.Context.ProcessBlock` | router/ipupdate/md5.c:248-401 | whole blocks are folded into the registers and counted |
| `Md5.Context.ProcessBytes` | router/ipupdate/md5.c:193-233 | the message taken in grows by exactly the bytes given; at most 64 bytes stay buffered |
| `Md5.Context.Finish` | router/ipupdate/md5.c:94-117 | the result is the digest of the whole message, padded as in sections 3.1 and 3.2 of RFC 1321 |
| `Md5.Chunked` | router/ipupdate/md5.c:193-233 | for every split into calls the result is the digest of the concatenation |
| `Md5.Buffer` | router/ipupdate/md5.c:177-190 | md5_buffer is the digest of its argument |
| `CronBits.Set` | router/cron/bitstring.h:53-54 | exactly one bit of the block is set |
| `CronBits.Nclear` | router/cron/bitstring.h:61-75 | exactly the bits start to stop, both included, are cleared, wherever they lie in the bytes |
| `CronBits.Nset` | router/cron/bitstring.h:78-92 | exactly the bits start to stop, both included, are set |
| `CronText.LineBack` | router/cron/entry.c:161-214 | reading the text of any well-formed line of five fields succeeds if and only if all it names is within bounds and no element counter wraps around, and then yields what it says |
| `CronText.BigStepRefused` | router/cron/entry.c:436-441 | a range of which all elements are within bounds, and which is refused because its counter wraps around |
| `CronText.SameNameIs` | router/cron/entry.c:480 | a name is spelled by a word of the same letters in either case |
| `CronText.MonthsCount` | router/cron/cron.h:244-248 | months count from 1 |
| `CronText.DaysCount` | router/cron/cron.h:250-254 | days count from Sunday, 0 |
| `CronText.ListBack` | router/cron/entry.c:314-357 | the same for one field and the blanks behind it |
| `CronScanner.Scanner.GetNumber` | router/cron/entry.c:446-498 | the longest run of letters and digits, below 100, is a name of the field or a number, the largest int if it is larger; otherwise, or at the end of the file, an error |
| `Cron.SetSpan` | router/cron/entry.c:436-441 | exactly the elements from the first in steps up to the last are set; refused if and only if one is out of bounds or the 32-bit counter wraps around |
| `Cron.GetRange` | router/cron/entry.c:361-442 | for every text: the branches on star, dash and slash read what the grammar says, and its elements are added |
| `Cron.GetList` | router/cron/entry.c:314-357 | for every text: the field's bits are exactly those of its ranges, the one bit behind the field is cleared, no other bit changes |
| `Cron.Entry.LoadFields` | router/cron/entry.c:161-214 | after the five fields each bitmap holds its own field, although clears overlap |
| `Cron.Entry.Load` | router/cron/entry.c:161-220 | also 0 and 7 are the same day, and the star flags are those of the text |
| `CronTick.MeaningKept` | router/cron/cron.c:182-189 | for every well-formed line and every time the bit tests hold if and only if the line read directly says so |
| `CronTick.LoadLine` | router/cron/entry.c:161-220 | loading a well-formed line succeeds if and only if all it names is within bounds and no counter wraps around, and the entry is then due exactly when the line says so |
| `CronTick.Tick` | router/cron/cron.c:154-197 | the queue gains exactly the entries that are due, none twice |
| `PhaseLock.Lock.constructor` | router/ntpclient/phaselock.c:184 | the static data at the start: no measurement, and the ring in order |
| `PhaseLock.Straightens` | router/ntpclient/phaselock.c:204-221 | pass 1 undoes the frequencies in force: skews that grew as those made them grow end up on the line of the present frequency |
| `PhaseLock.BandIsStraight` | router/ntpclient/phaselock.c:204-221 | the measurements of such a clock become bands around one line, each as wide as its error |
| `PhaseLock.Lock.Correct` | router/ntpclient/phaselock.c:204-221 | the loop over the ring corrects every measurement by the accumulated drift |
| `PhaseLock.Lock.Search` | router/ntpclient/phaselock.c:83-103 | the segment to a later point of smallest slope, the first such, or of largest slope, the last such |
| `Envelope.NextSegment` | router/ntpclient/phaselock.c:228-239 | from a vertex the least slope gives a segment no less steep than the last that lies on or below every point, earlier ones too |
| `Envelope.HullStep` | router/ntpclient/phaselock.c:228-259 | one more vertex keeps the envelope, from below and from above |
| `PhaseLock.Lock.MaxEnvelope` | router/ntpclient/phaselock.c:222-241 | segments of non-decreasing slope from the oldest point to the newest, at most 15, each on or below every upper point; the line kept is a candidate of least slope, if there is one |
| `PhaseLock.Lock.MinEnvelope` | router/ntpclient/phaselock.c:242-261 | the mirror image for the lower points |
| `PhaseLock.EnvelopesAre` | router/ntpclient/phaselock.c:222-261 | both envelopes in plain numbers: on or below every upper end with slopes that do not decrease, on or above every lower end with slopes that do not increase |
| `PhaseLock.KeptCrosses` | router/ntpclient/phaselock.c:230-233 | the line kept touches an envelope, has that curve on one side, and every later point of the other curve on the other |
| `PhaseLock.Lock.Contemplate` | router/ntpclient/phaselock.c:178-261 | with times that increase from call to call the ring stays in order, and once full it is corrected and both envelopes found |
| `Firewall.ShapeDecides` | router/netconf/netconf_linux.c:714-752 | first match on drops, accepts, defaults gives drop if any drop matches, else accept if any accept matches, else the earliest default |
| `Firewall.PlacedShape` | router/netconf/netconf_linux.c:714-752 | placing a rule keeps that shape |
| `Firewall.PlacedHolds` | router/netconf/netconf_linux.c:714-752 | placing loses and gains nothing else, and defaults keep the order in which they came |
| `Firewall.RunDecides` | router/netconf/netconf_linux.c:714-752 | the same verdict after any run of additions and deletions |
| `Firewall.OrderMatters` | router/netconf/netconf_linux.c:714-752 | two orders of adding the same rules decide a packet alike if and only if some rule that is not a default takes it, or the earliest defaults decide alike |
| `Firewall.DefaultOrderMatters` | router/netconf/netconf_linux.c:727-730 | two defaults added in the other order decide differently |
| `Firewall.Chain.InsertEntry` | router/netconf/netconf_linux.c:714-752 | the loop finds the place behind the leading drops, as the placing function says |
| `Firewall.Chain.DeleteEntry` | router/netconf/netconf_linux.c:1023-1053 | exactly the numbered rule goes, and the others keep their order |
| `Base64.RoundTrip` | router/ipupdate/ez-ipupdate.c:1537-1585 | decoding what was encoded gives it back, padding included |
| `Base64.TablesAgree` | router/httpd/httpd.c:340-357 | the decoding table of one program is the inverse of the encoding table of the other |
| `Base64.LettersAre` | router/ipupdate/ez-ipupdate.c:1537-1538 | the letters are those of table 1 of RFC 4648 |
| `Base64.GroupIs` | router/ipupdate/ez-ipupdate.c:1557-1560 | four digits are the 24 bits of three bytes, the first ones first |
| `Base64.OnlyAlphabet` | router/httpd/httpd.c:373-377 | characters outside the alphabet make no difference |
| `Base64.Encode` | router/ipupdate/ez-ipupdate.c:1539-1585 | the loop writes the encoding of section 4 of RFC 4648 |
| `Base64.Decode` | router/httpd/httpd.c:364-406 | on every seven-bit string the phases write the decoded bytes, as many as fit, and nothing else |
| `Base64.Exchange` | router/httpd/httpd.c:364-406 | for every NUL-free string and every buffer size k, decoding the encoding yields the first min(k, length) bytes |
| `Glob.MatchOne` | router/httpd/httpd.c:429-463 | sound and complete: true if and only if the string is cut into one piece for each token, a star slash-free, a double star anything |
| `Glob.Match` | router/httpd/httpd.c:412-426 | true if and only if some alternative between bars admits the string |

## Left out

- Sockets, select loops, file reading, logging and option parsing of all daemons; the log counters of the cache are kept only where `Cache.Cache.Insert` counts successes.
- Cache sizes below 3: cache_free and the victim loop assume that the rest of the list is not empty.
- The text in buffers on the free list, and which buffers are lost when a live long-named slot is reused (router/dnsmasq/cache.c:263): the bound on allocations and the absence of aliasing are proved instead.
- Reading /etc/hosts, and the leases file around process_lease: `Cache.Cache.AddHost` and `Cache.Cache.ProcessLease` take one parsed entry.
- DnsExtract.ExtractAddresses: a section is followed up to the point where the root name is extracted, which misses the caller's buffer and leaves its old text; in_arpa_name_2_addr is a parameter. The packet's memory must extend 16 bytes beyond its length, because fields and addresses are read before their bounds are checked.
- DnsReplies.AnswerRequest: a request is followed up to a question for the root name; the header bits are results and not written into the packet; in_arpa_name_2_addr, private_net and inet_ntoa are parameters. The limit is at least 16 bytes in front of the end of the memory, as in the program. Where a record would leave the memory the model stops.
- DnsOwners.DecodesAlways: for owners whose offset has a low byte below 192, and replies of at most 15872 bytes.
- DnsBufferLimits.SafeExactly: the names of local hosts, as mail exchangers of their own, are taken to fit; whether a longer one can be asked for depends on how far a request of 512 bytes can be compressed.
- How negative answers are read from a packet (extract_neg_addrs); in histories they are transactions of negative records for names. IPv6 reverse names and the parsing of in-addr.arpa names.
- DnsNames.ExtractName: MAXDNAME is a constant of a system header, 1025.
- DnsPackets.PrintThenParse: names of labels of 1 to 63 lower-case bytes without dots, at most MAXDNAME long.
- The table of pending queries is a sequence and the server list a sequence of node addresses rather than linked nodes; node reuse by reload_servers is modelled by addresses.
- Forwarder.Forwarder.GetId: the random draws are given and must contain a usable one; otherwise the source draws for ever.
- Md5.Context.ProcessBytes: one call takes fewer than 2^32 bytes, the range of size_t; the message as a whole has no limit. md5_stream is left out.
- Crontab: the @-keywords, the user name and command behind the fields, characters above 127, and compilers on which plain char is unsigned, where the end-of-file result is not recognised.
- Cron.GetList: not for a step of 0 with a first element within bounds, on which the source loops for ever.
- Floating-point rounding in the phase lock, its wrapping 32-bit seconds, and passes 4 and 5.
- Firewall: libiptc and its errors, the nat and application branches, finding the number of a rule to delete; a rule is its target, the packets it matches and whether it is blank.
- Base64.Decode: not for characters from 128 on, for which the source indexes its table with a negative number.
- CronScanner.Scanner.GetNumber: what atoi makes of a number beyond 32 bits, and a counter that passes the largest int, are not defined by the language; the model has the largest int and wrap-around.
