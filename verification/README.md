# psa-dhcp: a verified model

A Dafny model of the DHCP client and server in this repository (RFC 2131, RFC 2132), with proofs of what the two promise
each other and their users. `dafny verify dfyconfig.toml` checks all of it.

## What is modelled

Three parts, and the points where they meet.

**The lease database and the handlers of the server.** `Clients` is one map with two keys per record that share a mutable
record, and expiry is lazy and removes only the key that was looked up. The class `Clients.Clients` has that map, and is
proved to implement a time-filtered partial bijection between addresses and DUIDs (`LeaseTable`); half-deleted records exist
in its reachable states (`Clients.LosesAKey`) and are shown never to come back. `Ipdb.IPDB` adds the managed range and the
address search. Every packet gets a handler of its own, so the server is a transition system (`Handlers`): a step is what
runs under one hold of the database lock, the outcome of one ARP check, or a read into the buffer that all packets share, and
any step of any handler may come next. `Server.Server` performs these steps on the classes, and `Steps` says what each of
them comes to by the fields of the packet and the entries of the table. `Grants` is the database with its history of
successful updates, and `ServerSafety` holds what is true in every run: exclusive grants, the reservation of an offer,
permanent entries, static-only mode, and the one way in which a lease gets shorter. `Answers` follows a single handler: what
it goes by, whom it answers, and exactly when a request ends acknowledged; `Discoveries` says exactly when a client that
comes back is offered its own address, and `Reboots` has the client that asks again without naming a server. `Runs` and
`Pretenders` have runs from the start of a server that show what goes wrong otherwise.

**The client state machine.** `ClientStates` is the loop of the client as a function of what happens in a round: packets
read, an ARP answer, the outcome of configuring the interface, cancellation. The interface is part of the state.
`Dclient.Dclient` has the fields and methods of the source and is proved to take those steps. `ClientProgress` says what a
client gets to when the others play along, and what it falls back to when they do not. `ClientTimes` lets rounds follow each
other and end at their deadlines. `Deadlines` has the timers, and `Float64` the arithmetic that they and the lease option go
through, written out for natural numbers: nearest value of 53 significant bits, ties to even.

**The wire.** `DhcpMsg`, `Options`, `Layer` and `Checksum` are the printers and parsers, with the fixed widths of the source
and its truncations; `Packets` is the path of a datagram through both decoders and the 4096-byte read buffer. `Replies`,
`ServerConfig` and `Templates` are the packets that the two ends send; `Verify` and `Requests` decide what each end makes of
what it gets. `WireFormat` has these packets byte by byte, and `Configured` what a server tells each of its clients.
`Interop`, `ClientInterop` and `Handshake` prove that the two ends fit together; `Agreement` has a client that is served from
its first packet on until it is bound, and `Outlived` one that keeps its address for longer than its server does.

Conventions: a Go `net.IP` is a byte sequence, empty for nil; widths are subset types over `int` with explicit wrap-around;
time is in nanoseconds, and a clock reading that a function takes from the system is a parameter that must not go back;
random permutations, the results of ARP requests, transaction numbers, identification fields and the CRC of a hardware
address are parameters too. The server's own hardware address is taken to have an internal DUID that no client uses, where a
theorem says so.

Findings about the code, each stated as a lemma or contract:

- The read loop hands out slices of its one buffer: the options of a packet, and a DUID sent by a client, change under the
  handler that uses them when the next packet is read. What a handler goes by is what was written last
  (`Answers.IdentityOf`), and the database has left the address of its answer to its own client if and only if these bytes are
  the DUID of this client (`Answers.AnswersItsClient`). A client can thus be offered an address that is in force for another
  (`Runs.OverwrittenOfferGoesAstray`, `Runs.TwoClientsOneAddress`); grants stay exclusive all the same, between the DUIDs that
  the database is given. While no grant of its pair is over, a request for an address is acknowledged if and only if the DUID
  reads as it should whenever the database is asked and the ARP check passes (`Answers.RequestIsAckedIff`,
  `Runs.OfferedAndRefused`), and a client that comes back is offered its address, in every interleaving, if and only if its DUID
  reads as it should at the search and at the reservation (`Discoveries.OfferIsOwnIff`). All this takes the bytes to be stable
  during a single call of the database.
- A client that sends an identifier is known by it only while nobody has a lease under the internal DUID of its hardware
  address, and anyone can get one by sending that DUID as an identifier. An untouched request for what has just been offered is
  refused if and only if its client is then no longer known under the DUID of the offer (`Answers.FreshRequestIsAcked`,
  `Handshake.OfferBecomesAck`, `Handshake.KnownUnder`, `Pretenders.OfferedAndDisowned`). A client with a static entry always is.
- An acknowledged lease can be cut short, by an offer to its holder and by nothing else (`ServerSafety.OfferResetsLease`,
  `Runs.AcknowledgedAndShortened`).
- A client can go on using an address that the server has freed, since its lease counts from when it enters Bound
  (`Handshake.ClientOutlivesLease`, `Outlived.SomeClientOutlivesLease`). The lease that it is sent can itself be the longer one,
  because seconds are taken in floating-point arithmetic (`Handshake.LeaseIsRoundedUp`); not for leases below 2^24 seconds
  (`Float64.SecondsBelow`).
- The search for an address leaves its range, for one address only: if and only if a client without a lease suggests a managed
  one outside of it that is not held, and is valid and free at the first look (`Ipdb.OutsideIsSuggested`,
  `Ipdb.SomeAddressOutside`).
- The check for a second override of the same hardware address in `New` compares strings that are never equal
  (`Server.AddOverride`, `Keys.HwStringIsNoDuid`).
- A message without options is printed without an end marker and cannot be read back (`DhcpRoundTrip.MessageRoundTrip`).
- Padding before an option is not neutral when the hardware address length is above 212, because the address is then read
  out of the options (`DhcpRoundTrip.PaddingShiftsLongAddress`).
- A refusal is accepted whatever its transaction number is (`Interop.NackInterop`).
- A resumed client can keep its address for up to four seconds beyond the end of its lease, exactly if the server asked for
  a rebinding in the last five seconds of it (`Deadlines.ResumeStaysClose`).
- A reply without a router is never accepted, so a server needs a default or override router for each client
  (`Interop.OfferInterop`, `Interop.AckInterop`).

## Model

| member | source | states |
|---|---|---|
| Keys.FormatDuid | lib/server/ipdb/duid/duid.go:9-22 | the loop over the bytes prints the dashed hexadecimal form, and the nil sentinel for the empty DUID |
| Keys.HexInjective | lib/server/ipdb/uip/uip.go:18-20 | hexadecimal without leading zeros determines the number |
| Keys.DashedHexInjective | lib/server/ipdb/duid/duid.go:13-19 | the dashed form determines the bytes |
| Keys.KeysNeverCollide | lib/server/ipdb/clients/clients.go:37 | both key functions are injective, also on the nil sentinel, and no address key is a DUID key |
| Keys.HwStringIsNoDuid | lib/server/server.go:81 | the printed hardware address is no key of the override map, so the duplicate check cannot fire |
| LeaseTable.AtAt | lib/server/ipdb/clients/clients.go:39-43 | looking at the database earlier does not change what it says later |
| LeaseTable.UpdateIsExact | lib/server/ipdb/ipdb.go:98-118 | for a ttl of at least 0 an update succeeds exactly if the pair is mapped both ways or neither half is, sets the end of that pair, and leaves all others alone |
| LeaseTable.UpdateKeepsInvariants | lib/server/ipdb/ipdb.go:98-118 | an update keeps one address per DUID and one DUID per address |
| Clients.TimePasses | lib/server/ipdb/clients/clients.go:39 | the two-key map stays consistent with what is left of the table when the clock moves on |
| Clients.DeletingStale | lib/server/ipdb/clients/clients.go:39-41 | deleting one key of a record that is over leaves the abstract table unchanged and the map consistent |
| Clients.Inserting | lib/server/ipdb/clients/clients.go:66-68 | inserting a record under both keys, over whatever stale entries are there, adds exactly its pair |
| Clients.Extending | lib/server/ipdb/clients/clients.go:83 | setting the deadline through the shared record changes exactly its pair |
| Clients.LiveView | lib/server/ipdb/clients/clients.go:31-47 | at every later time each live record is reachable under both its keys, and the live records are the table |
| Clients.HalfDeletedIsStale | lib/server/ipdb/clients/clients.go:39-41 | a record that has lost one of its keys is over |
| Clients.LosesAKey | lib/server/ipdb/clients/clients.go:31-47 | a lookup of its address with another DUID leaves an expired record under its DUID only, in a valid state |
| Clients.Clients.ServeAll | lib/server/ipdb/clients/clients.go:31-90 | whatever calls follow, a record that is over, in particular one that has lost a key, never gets a new deadline |
| Clients.ConsistentIsInjective | lib/server/ipdb/clients/clients.go:19-22 | the table behind a consistent map has one address per DUID |
| Clients.FindByIp | lib/server/ipdb/clients/clients.go:37-44 | an address key holds a live record exactly if the table has the address |
| Clients.FindByDuid | lib/server/ipdb/clients/clients.go:37-44 | a DUID key holds a live record exactly if the table has the DUID |
| Clients.Clients.Lookup | lib/server/ipdb/clients/clients.go:31-47 | returns the live record of the address and the live record of the DUID; table and live view stay as they are |
| Clients.Clients.LookupKey | lib/server/ipdb/clients/clients.go:38-44 | one key: the entry is returned if it is alive, and deleted if not |
| Clients.Clients.InjectInternal | lib/server/ipdb/clients/clients.go:57-70 | fails on a taken address first, then on a taken DUID, and otherwise adds exactly the pair |
| Clients.Clients.SetLease | lib/server/ipdb/clients/clients.go:72-86 | fails for a missing address, a missing DUID or two different records, in this order; otherwise sets the end of the pair |
| Clients.Clients.Expire | lib/server/ipdb/clients/clients.go:88-90 | removes a pair, unless it is permanent |
| Network.AndUpperBits | lib/server/ipdb/ipdb.go:193 | masking with a contiguous mask clears the host bits |
| Network.FromToNeverWraps | lib/server/ipdb/ipdb.go:193-199 | no `uint32` operation wraps for any network and mask |
| Network.ManagedAddresses | lib/server/ipdb/ipdb.go:167-200 | for every network and number of host bits, exactly all addresses but the first and last are managed, a single one for a /32, none for a /31; `toUip` inverts `ToV4` on them |
| Network.ToUipIsExact | lib/server/ipdb/ipdb.go:167-179 | an address is accepted as a number exactly if it equals the printed form of that number and lies in the range |
| Bytes.ToV4IsRightInverse | lib/server/ipdb/uip/uip.go:10-12 | the printed form of a number reads back as the number |
| Bytes.EqualIffCanonical | lib/server/netio.go:121 | address equality is equality of the 4-byte forms where there are any |
| Ipdb.SearchSound | lib/server/ipdb/ipdb.go:146-156 | the loop returns the first candidate that is unheld, valid and free when looked at, and passes over none before it |
| Ipdb.FindIPSound | lib/server/ipdb/ipdb.go:121-157 | a client with a live lease gets its address; anyone else an address that nobody held, whose last byte is neither 0 nor 255 and whose ARP probe was free when it was looked at, and that is the managed suggestion or in the search range |
| Ipdb.FoundIsFirst | lib/server/ipdb/ipdb.go:121-157 | a client without a lease is found an address if and only if it is the first candidate, suggestion first and then the permuted range, that is unheld, ends in neither 0 nor 255, and is free by ARP, each when looked at and before a cancellation |
| Ipdb.FoundWithoutSearch | lib/server/ipdb/ipdb.go:125-139 | a lease is found without a probe; without a lease or a search range, nothing is |
| Ipdb.SuggestionWins | lib/server/ipdb/ipdb.go:141-153 | a managed suggestion that is unheld, free and no network or broadcast byte is picked although its offset wraps around |
| Ipdb.OutsideIsSuggested | lib/server/ipdb/ipdb.go:121-157 | a client without a lease is found an address outside the search range if and only if it has suggested it, nobody holds it at either look, and it is valid and free at the first |
| Ipdb.SomeAddressOutside | lib/server/ipdb/ipdb.go:141-153 | there are such ranges and such an address |
| Ipdb.FindIPComplete | lib/server/ipdb/ipdb.go:121-157 | a search that fails without being cancelled found every address of the search range held, invalid or not free |
| Ipdb.OffsetsAreCandidates | lib/server/ipdb/ipdb.go:141-150 | adding an offset to the start of the search range recovers each candidate, wrap-around included |
| Ipdb.IPDB.New | lib/server/ipdb/ipdb.go:26-38 | an empty database whose search range is the managed one; inverted only for a mask with one host bit |
| Ipdb.IPDB.SetDynamicRange | lib/server/ipdb/ipdb.go:41-62 | succeeds exactly for two managed addresses in order, and keeps the search range inside the managed one |
| Ipdb.IPDB.DisableDynamic | lib/server/ipdb/ipdb.go:66-71 | no search happens any more |
| Ipdb.IPDB.LookupClientByDuid | lib/server/ipdb/ipdb.go:73-82 | the one live address of the DUID, if it has one |
| Ipdb.IPDB.AddPermanentClient | lib/server/ipdb/ipdb.go:86-95 | succeeds exactly on a managed address if neither half of the pair is taken |
| Ipdb.IPDB.UpdateClient | lib/server/ipdb/ipdb.go:98-118 | succeeds exactly on a managed address whose pair is held or vacant; the new table is the updated one |
| Ipdb.IPDB.InjectAndSet | lib/server/ipdb/ipdb.go:114-117 | the set after a successful insertion cannot fail for a lease that is not over already |
| Ipdb.IPDB.FindIP | lib/server/ipdb/ipdb.go:121-157 | the two phases over the shared map find what the specification finds, and change the table only by the passing of time |
| Ipdb.IPDB.Probe | lib/server/ipdb/ipdb.go:146-156 | the loop over offsets is the search over candidates |
| Server.Server.Receive | lib/server/run.go:28-47 | a packet that both decoders and the parser accept and that is a request gets a fresh handler; others change nothing |
| Server.Server.Identify | lib/server/netio.go:16-41 | the DUID is looked up and the guards send the handler to the search, to the lookup or to its end |
| Server.Server.Overwrite | lib/server/run.go:28-46 | a read into the shared buffer changes the options of an untouched packet or a DUID taken from it, and nothing else |
| Server.Server.GetDuid | lib/server/utils.go:40-53 | the internal DUID if it has a lease or the client's identifier is shorter than four bytes, else that identifier |
| Server.Server.Find | lib/server/netio.go:58-62 | the search as one step |
| Server.Server.Reserve | lib/server/netio.go:63-69 | the reservation of fifteen seconds as one step, with its entry in the history |
| Server.Server.LookUp | lib/server/netio.go:116-126 | the lease lookup of a request as one step: on to the ARP check if the lease is the desired address, refusal otherwise |
| Server.Server.Arp | lib/server/netio.go:127-131 | the ARP check as one step: refusal if someone else answers |
| Server.Server.ArpVerify | lib/server/utils.go:15-26 | an address is free if the first answer out of three attempts comes from the client, or none comes |
| Server.Server.Confirm | lib/server/netio.go:132-139 | the confirmation as one step, with its entry in the history |
| Server.SearchRange | lib/server/server.go:45-65 | fails exactly for a range that is not one of managed addresses in order; otherwise the search range is that one, or unchanged without one, or disabled for `static_only` |
| Server.InstallClients | lib/server/server.go:68-86 | the loop succeeds exactly if all static addresses are managed and no two share an address or a hardware address; the table then has exactly the permanent entries of these clients, and the overrides are theirs |
| Server.OverrideIsOwn | lib/server/server.go:85 | a client gets the last override for its own hardware address, and none of another's |
| Server.OverrideIsLast | lib/server/server.go:85 | it is that of the last entry for the hardware address, and there is none without an entry |
| Server.AddOverride | lib/server/server.go:81-85 | the error for a duplicate override is out of reach |
| Server.New | lib/server/server.go:28-93 | a server starts exactly for a valid network, a search range inside it, and static clients that, with the server itself, are managed and share no address and no hardware address; it then holds exactly their permanent entries under their internal DUIDs, and does not search for `static_only` |
| Server.StaticClientIsFound | lib/server/server.go:68-93 | in every run from such a start, a configured client goes by its internal DUID and is found its address at the first look, whatever it sends |
| Server.InstalledWithSelfIsExact | lib/server/server.go:68-93 | the installation, own entry last, succeeds exactly for compatible clients and leaves exactly their entries |
| Server.ConfiguredRangeIsExact | lib/server/server.go:45-65 | which configured ranges are accepted, and which search range results |
| Requests.ClassificationIsExact | lib/server/netio.go:83-108 | which requests fall into which of the four kinds, that the kinds exclude each other, and that the nil panic is out of reach |
| Requests.JobIsExact | lib/server/netio.go:21-113 | by the fields of the packet: which ones are taken up as a discovery for which address, which as one of the four kinds of requests for which managed address, and that all others are dropped |
| Steps.IdentifyIsExact | lib/server/netio.go:21-113 | by the fields of its packet, a handler goes on to look for a managed address, to search with a suggestion, or ends |
| Steps.IdentityIsExact | lib/server/utils.go:40-53 | it goes by its internal DUID if a live entry has that one or fewer than four bytes were sent, and else by the bytes that were sent, which stay in the shared buffer |
| Steps.LookUpIsExact | lib/server/netio.go:116-126 | a lookup goes on with the live entry of its DUID if this is the desired address, and else refuses |
| Steps.ReserveIsExact | lib/server/netio.go:63-69 | a reservation succeeds exactly if the managed address and the DUID have each other or nobody; its entry then ends in fifteen seconds, others stay, and otherwise the packet is dropped |
| Steps.ConfirmIsExact | lib/server/netio.go:132-139 | a confirmation succeeds under the same condition, for the configured lease; otherwise the packet is dropped |
| Handlers.EffectIsTimely | lib/server/netio.go:58-139 | no step moves the clock back or grants less than fifteen seconds |
| Grants.EffectIsSound | lib/server/ipdb/ipdb.go:98-157 | every look and update keeps the history exclusive and in order, and the table equal to its unexpired latest grants |
| Grants.NoConflictInForce | lib/server/ipdb/ipdb.go:109-117 | no update is accepted against a grant that is in force |
| Grants.KeptIsHeld | lib/server/ipdb/clients/clients.go:39 | a pair is in the table for as long as no grant of it is over, whatever else has been granted since |
| Grants.ReservedForOfferTime | lib/server/netio.go:63 | for fifteen seconds after any grant its pair is in the table, whatever has been granted since |
| Grants.EffectKeepsPermanent | lib/server/ipdb/clients/clients.go:39 | no look or update removes or moves a permanent entry or grants its halves to others |
| ServerSafety.StepIsSafe | lib/server/netio.go:16-140 | every step of every handler keeps all safety properties together |
| ServerSafety.EveryRunIsSafe | lib/server/netio.go:47-140 | in every interleaving: a conflicting grant comes only after the end of the latest grant; every offer and acknowledgement has a grant to the DUID that its handler goes by; permanent entries stay |
| ServerSafety.EveryGrantIsReserved | lib/server/netio.go:58-69 | in every run, a pair granted less than fifteen seconds ago is exclusively in the table |
| ServerSafety.EveryLeaseIsKept | lib/server/netio.go:132-139 | in every run, a pair whose latest grant is not over is exclusively in the table |
| ServerSafety.OfferResetsLease | lib/server/netio.go:63 | a step shortens a live lease exactly if it is the reservation of its address for its holder and more than fifteen seconds were left |
| ServerSafety.LeasesStayBounded | lib/server/netio.go:132 | in every run, no lease has more than the configured duration to run |
| Answers.StepKeepsQuery | lib/server/run.go:46 | no step changes the packet of a handler, or anything of one that has ended |
| Answers.IdentityOf | lib/server/run.go:28-46 | in every run, a handler goes by the options read last before it was identified, and by the DUID written last since: the one `getDuid` gave for those options, or the bytes of a later packet |
| Answers.OwnIdentity | lib/server/utils.go:40-53 | in every run, a handler that is not overwritten has the options of its own packet, and the DUID that `getDuid` gave for it |
| Answers.AnswersItsClient | lib/server/netio.go:47-140 | in every run, the step that answers leaves the address of an offer or acknowledgement to the DUID of its own client if and only if the handler goes by this DUID in the end, which is the one written last |
| Answers.UntouchedAnswersItsClient | lib/server/netio.go:47-140 | in particular, the answer of a handler that is not overwritten has a grant to the DUID of its own client, and does what its own packet asks for |
| Answers.AnswerIsHeld | lib/server/ipdb/ipdb.go:98-118 | the step that answers leaves the address to the DUID that the handler goes by and to no other |
| Answers.CourseStep | lib/server/netio.go:116-139 | a request for a pair that is kept stays on course in a step exactly if the database is asked under the granted DUID and the ARP check passes; else it is refused, or dropped if this was its confirmation |
| Answers.RequestIsAckedIff | lib/server/netio.go:116-139 | while no grant of its pair is over, a request that has ended is acknowledged if and only if its ARP check passed and its DUID read as granted whenever the database was asked; otherwise refused or dropped, whatever other handlers do |
| Answers.LeasedRequestIsAcked | lib/server/netio.go:116-139 | in particular if its DUID is internal or not overwritten |
| Answers.ReservedRequestIsAcked | lib/server/netio.go:116-139 | the same within fifteen seconds of any grant, an offer included |
| Answers.OverwrittenRequestIsRefused | lib/server/run.go:28-46 | a request for a reserved address that asks the database with other bytes, at whichever step, never ends acknowledged |
| Answers.KnownByLease | lib/server/utils.go:40-53 | `getDuid` gives a DUID with a lease if and only if it is the internal one, or the identifier sent while the internal one has no lease |
| Answers.FreshRequestIsAcked | lib/server/netio.go:72-140 | from the packet on, an untouched request for a kept pair that has ended is acknowledged if and only if its client is known under the granted DUID at its identification, and else refused |
| Reboots.RebootBecomesAck | lib/server/netio.go:84-139 | an untouched broadcast request that names a kept address and no server ends acknowledged if its client is known under the granted DUID, and else refused |
| Reboots.RebootIsHeard | lib/server/run.go:34-46 | the packet of such a client is heard as that request |
| Reboots.SomeRebootIsAcked | lib/server/netio.go:84-139 | a run from the start in which a client is offered an address, reboots, and has it acknowledged |
| Discoveries.OwnIsFound | lib/server/ipdb/ipdb.go:121-157 | an address that is held throughout a search is found under the DUID that holds it and under no other, whatever is suggested |
| Discoveries.SearchedStep | lib/server/netio.go:58-69 | each step of a discovery keeps it at the granted address exactly if all accesses to the database have been under the granted DUID |
| Discoveries.OfferIsOwnIff | lib/server/netio.go:58-69 | while no grant of its pair is over, a discovery that has ended offers the granted address if and only if its DUID read as granted at the search and at the reservation; otherwise it offers another address or is dropped, whatever other handlers do |
| Discoveries.ReservedOfferIsOwnIff | lib/server/netio.go:58-69 | the same within fifteen seconds of any grant |
| Discoveries.FreshDiscoveryIsOffered | lib/server/netio.go:47-70 | from the packet on, an untouched discovery that has ended offers the granted address if and only if its client is known under the granted DUID at its identification |
| Runs.OverwrittenOfferGoesAstray | lib/server/run.go:28-46 | any handler about to search, overwritten with the DUID of a grant in force, offers that address to its own client |
| Runs.TwoClientsOneAddress | lib/server/netio.go:58-69 | a run from the start in which two clients are offered one address at the same time |
| Runs.OfferedAndRefused | lib/server/netio.go:116-126 | a run from the start in which a client is refused at once what it has been offered |
| Runs.AcknowledgedAndShortened | lib/server/netio.go:63 | a run from the start in which an acknowledged lease is cut down to fifteen seconds |
| Runs.ClientsAreNewcomers | lib/client/msgtmpl/tmpl.go:26-43 | the packets of these runs are those that this client sends |
| Runs.SomeServerIsReady | lib/server/server.go:28-93 | there is a server from which these runs start |
| Runs.SomeClientIsNew | lib/server/utils.go:40-53 | and any client but the server itself will do |
| Pretenders.OfferedAndDisowned | lib/server/utils.go:40-53 | a run from the start, without any overwriting, in which a client is refused what it has been offered, because its internal DUID has got a lease in between |
| Pretenders.PretendIsHeard | lib/server/run.go:34-46 | the packet that brings this about is a well-formed discovery |
| Pretenders.SomeClientIsDisowned | lib/server/netio.go:116-126 | such a run with packets that this client sends |
| ServerSafety.StaticOnly | lib/server/ipdb/ipdb.go:137-139 | with searches disabled, the pairs in the database are the initial ones in every run |
| ServerSafety.StaticClientKeepsItsAddress | lib/server/utils.go:40-53 | in every run a static client is known by its hardware address, its lookup finds its address, and updates of it succeed |
| ServerSafety.OwnAddressIsNeverGranted | lib/server/server.go:88-91 | in no run is the server's own address granted to another DUID, or its entry lost |
| ServerSafety.EveryAnswerMatches | lib/server/netio.go:36-139 | in every run, by the options that the handler has read, offers answer discoveries, refusals answer requests, and acknowledgements answer requests for the very address they name |
| Checksum.Ipv4Csum | lib/layer/checksum.go:29-42 | the accumulating and folding loops compute the complement of the folded word sum |
| Checksum.NoOverflow | lib/layer/checksum.go:29-37 | the 32-bit accumulator does not overflow for packets of up to 65535 bytes, odd lengths included |
| Checksum.FoldValue | lib/layer/checksum.go:38-40 | folding keeps the sum modulo 65535 and keeps it non-zero |
| Checksum.SetV4Checksum | lib/layer/checksum.go:8-25 | the in-place function writes both checksums, or reports why not, and touches nothing else |
| Checksum.ChecksumsVerify | lib/layer/checksum.go:8-65 | for every header length, after the checksums are set the header sums to 0xFFFF, and so do source and destination, protocol, length and segment together (RFC 768); no other byte changes |
| Checksum.OtherChecksums | lib/layer/checksum.go:8-25 | a packet that is not IPv4 is left alone, and one without room for a UDP header only gets its header checksum |
| Layer.AssembleIPv4 | lib/layer/ip.go:24-51 | the buffer ends up as the header, payload and checksums of the packet |
| Layer.AssembleUDP | lib/layer/udp.go:18-27 | the buffer ends up as ports, cut length, zero checksum and payload |
| Layer.Ipv4RoundTrip | lib/layer/ip.go:24-80 | decoding returns what was assembled, checksum bytes aside, exactly for total lengths of up to 65535 |
| Layer.UdpRoundTrip | lib/layer/udp.go:18-45 | decoding returns what was assembled exactly for total lengths of up to 65535 |
| Layer.UdpInIpv4RoundTrip | lib/layer/checksum.go:19-20 | both decoders recover addresses, ports and data, although the checksum overwrites two bytes of the payload |
| Layer.AssembledPacketVerifies | lib/layer/ip.go:24-51 | both sums of an assembled packet come out at the receiver, that of the segment with both addresses, protocol and length written out |
| WireFormat.DatagramOnTheWire | lib/layer/ip.go:24-51 | a printed datagram decodes as UDP with 64 hops to live, no fragment flags, and the given addresses and ports |
| DhcpMsg.Assemble | lib/dhcpmsg/assemble.go:34-64 | the printed message is its header, its options and, after at least one option, an end marker |
| WireFormat.MessageLayout | lib/dhcpmsg/assemble.go:34-64 | where each field of a message is in its bytes |
| DhcpMsg.Decode | lib/dhcpmsg/parse.go:13-60 | the cursor loop is total, stays in bounds, and returns what the recursive grammar says |
| DhcpRoundTrip.PrintedOptionsParse | lib/dhcpmsg/parse.go:39-58 | printed options, an end marker and any tail parse to the same options |
| DhcpRoundTrip.MessageRoundTrip | lib/dhcpmsg/assemble.go:34-64 | a message with a hardware address of up to 16 bytes comes back, addresses normalised, exactly if it has options and all can be encoded; one without options is not parsed at all |
| DhcpRoundTrip.ParsedIsEncodable | lib/dhcpmsg/parse.go:39-58 | the parser only returns options that the format can carry |
| DhcpRoundTrip.TruncatedIsRefused | lib/dhcpmsg/parse.go:39-58 | options without an end marker, or with the last one cut short anywhere, are refused |
| DhcpRoundTrip.MessagePadding | lib/dhcpmsg/parse.go:41-45 | padding before any option or the end marker changes nothing, for hardware address lengths of up to 212 |
| DhcpRoundTrip.MessageTail | lib/dhcpmsg/parse.go:46-48 | bytes after the first end marker change nothing, for hardware address lengths of up to 212 |
| DhcpRoundTrip.PaddingShiftsLongAddress | lib/dhcpmsg/parse.go:34-35 | for every longer length there is a message that padding changes |
| Options.DecodeOptions | lib/dhcpmsg/optshelper.go:28-68 | the loop applies the options from first to last |
| Options.LastOccurrenceWins | lib/dhcpmsg/optshelper.go:28-68 | each field is decoded from the last option of its own code and from nothing else |
| Options.FieldsAre | lib/dhcpmsg/optshelper.go:28-68 | which option code each field of one byte or of raw bytes comes from; wrong lengths count as nothing |
| Options.NumbersAre | lib/dhcpmsg/optshelper.go:77-89 | 16-bit numbers and durations are big-endian, and durations whole seconds |
| Options.AddressesAre | lib/dhcpmsg/optshelper.go:103-108 | requested address, server and broadcast address are read from exactly four bytes |
| Options.ListsAre | lib/dhcpmsg/optshelper.go:111-119 | routers and DNS servers are read in groups of four bytes |
| Options.ToV4A | lib/dhcpmsg/optshelper.go:111-119 | the loop cuts the data into addresses, and returns none unless it is made of whole ones |
| Options.BuildOptIP | lib/dhcpmsg/assemble.go:112-120 | the buffer holds the 4-byte form of each address, and zeros for one that has none |
| Options.AddressesRoundTrip | lib/dhcpmsg/optshelper.go:111-119 | a printed address list decodes to the same addresses in normal form |
| Options.AddressOptionRoundTrip | lib/dhcpmsg/optshelper.go:103-108 | a single printed address decodes to itself in normal form |
| Options.LeaseDurationRoundTrip | lib/dhcpmsg/assemble.go:156-160 | a duration comes back exactly if it is whole seconds that fit 32 bits; otherwise off by less than a second, and rounded down below 2^24 seconds |
| Packets.PacketArrives | lib/server/run.go:28-41 | of all datagrams that IPv4 can carry, exactly those that fit the 4096 bytes of the read buffer arrive, with their addresses, port and payload |
| Verify.CatchReply | lib/client/dclient/netio.go:86-109 | the loop returns the first answer among the packets |
| Verify.AnswerIsFirst | lib/client/dclient/netio.go:86-109 | the answer is that of a packet before which all were passed over, and none only if all were |
| Verify.Receive | lib/client/dclient/netio.go:91-99 | one packet is taken for a reply exactly if it decodes at every layer, is UDP to port 68, and names the client's hardware address |
| Verify.Examined | lib/client/dclient/netio.go:99-105 | a reply is accepted only with the verdict Passed |
| Verify.VerdictIsExact | lib/client/verify/verifyer.go:20-81 | by the fields of a reply: exactly which offers and acknowledgements pass, and which are refusals |
| Verify.AssignableIsProper | lib/client/verify/verifyer.go:62-81 | an assignable address is neither nil nor all zeros nor all ones |
| ServerConfig.DhcpOptions | lib/server/server.go:96-127 | the appended options are lease and mask from the defaults, and router, DNS, NTP and domain from the override or else the defaults |
| Configured.ClientIsToldItsOwn | lib/server/server.go:96-127 | from the configuration to what a client decodes: router, DNS, NTP and domain of its own entry where that has them and the defaults otherwise; mask and lease always the defaults |
| Configured.ClientIsToldDefaults | lib/server/server.go:96-127 | a client without an entry is told the defaults |
| WireFormat.OptionsForBytes | lib/server/server.go:96-127 | the configured options byte by byte: lease, mask, and router, DNS, NTP and domain where there are any |
| WireFormat.ReplyHeader | lib/server/replies/common.go:10-22 | the header of a reply byte by byte: flags of the client, its new address, its hardware address, and zeros elsewhere |
| WireFormat.ReplyTail | lib/server/replies/offer.go:9-23 | the options of an offer or acknowledgement byte by byte |
| WireFormat.OfferDestination | lib/server/replies/common.go:24-29 | an offer goes to everyone if the highest flag is set, and else to the new address, from port 67 to port 68 |
| WireFormat.AckDestination | lib/server/replies/common.go:24-29 | and so does an acknowledgement |
| WireFormat.RefusalDestination | lib/server/replies/nack.go:9-21 | a refusal always goes to everyone |
| Interop.WholeStackRoundTrip | lib/layer/ip.go:24-80 | a message printed into UDP and IPv4 comes back through all three parsers exactly if the packet fits 16 bits |
| Interop.OfferInterop | lib/server/replies/offer.go:9-23 | a printed offer is accepted exactly by the client and question it is for, with a router, assignable addresses and a lease of a minute; it is never taken for a refusal |
| Interop.AckInterop | lib/server/replies/ack.go:9-23 | a printed acknowledgement is accepted exactly under these conditions and for the address and, where it counts, the server of the last reply |
| Interop.NackInterop | lib/server/replies/nack.go:9-21 | a printed refusal is one for its client in every state that asks for an acknowledgement, whatever the transaction |
| Interop.ReplyDecoded | lib/server/server.go:96-127 | what a client reads in the options of a reply: type, server, lease, mask, router, DNS and domain as configured for it, no MTU and no times of renewal and rebinding |
| Interop.CommonVerdict | lib/client/verify/verifyer.go:62-81 | the common checks pass exactly for a matching transaction and an acceptable server configuration |
| Templates.BuildRequest | lib/client/msgtmpl/request.go:17-56 | appending the optional options and nesting the three printers gives the request packet |
| WireFormat.RequestHeader | lib/client/msgtmpl/request.go:35-54 | the header of a request byte by byte, with the source as client address and no flags |
| WireFormat.RequestTail | lib/client/msgtmpl/request.go:17-33 | its options byte by byte: type, identifier, message size 1500, the wanted parameters, and requested address and server where given |
| WireFormat.RequestsOnTheWire | lib/client/msgtmpl/tmpl.go:26-65 | the four packets of a client: source, destination, ports, type, and the addresses that they name |
| ClientInterop.RequestDecoded | lib/client/msgtmpl/request.go:17-33 | what a server reads in the options of a request: type, client identifier, requested address and server, nil where not given |
| ClientInterop.DiscoverInterop | lib/client/msgtmpl/tmpl.go:26-33 | a printed discovery passes the guards of every other server and starts a search |
| ClientInterop.SelectingInterop | lib/client/msgtmpl/tmpl.go:36-43 | a printed selection is classified as SELECTING for its address by the server it names, and dropped by all others |
| ClientInterop.RenewingInterop | lib/client/msgtmpl/tmpl.go:46-54 | a printed renewal is classified as RENEWING for the source address by the server it is sent to, and dropped by others unless it was sent to everyone |
| ClientInterop.RebindingInterop | lib/client/msgtmpl/tmpl.go:57-65 | a printed rebinding is classified as REBINDING for the source address by every server that manages it (RENEWING by one at the broadcast address) |
| Handshake.SentReachesItsClient | lib/server/netio.go:142-158 | what a handler sends is accepted by its client only, only as the answer that it is, and names the address of the handler |
| Handshake.RequestIsForOffer | lib/client/dclient/dhcpstates.go:27 | the request built from an accepted offer is taken up by the offering server as one for that address |
| Handshake.RequestAsks | lib/server/run.go:34-46 | the server hears the request for an accepted offer as a packet of that client which makes it look for the address |
| Handshake.OfferBecomesAck | lib/server/netio.go:47-140 | the client accepts what a handler sends as an offer; the packet heard from its request gets a handler; if that one, untouched, ends within fifteen seconds, it sends an acknowledgement that the client accepts if it is known under the DUID of the offer at its identification, and else a refusal that the client takes for one |
| Handshake.RenewalBecomesAck | lib/client/dclient/dhcpstates.go:58-71 | while its lease lasts, the packet heard from the renewal of a client gets a handler, and what that one sends is an accepted acknowledgement if the client is known under the DUID of its lease at its identification, and else a refusal |
| Handshake.RebindingBecomesAck | lib/client/dclient/dhcpstates.go:74-87 | the same for a rebinding, at any server that has granted the address, whoever sent the last reply |
| Handshake.KnownUnder | lib/client/msgtmpl/request.go:17-33 | this client is known under the internal DUID of its hardware address, or under the identifier that it sends while the internal one has no lease |
| Agreement.NewcomerIsServed | lib/server/netio.go:47-140 | a run from the start of a server in which the discovery of a newcomer becomes an offer, the offer a request, and the request an acknowledgement, each accepted by the other end |
| Agreement.ServedIsBound | lib/client/dclient/dclient.go:59-80 | with what this server has sent in its rounds, a client that starts gets to Bound, and its interface has exactly the address that the server has granted |
| Agreement.SomeStarting | lib/server/server.go:28-93 | there is such a server, for any client but itself |
| Handshake.ClientOutlivesLease | lib/client/dclient/dhcpstates.go:39-44 | the lease of the client ends after that of the server exactly if more time passes from confirmation to Bound than the lease is longer than what was sent of it; for whole seconds, any time at all |
| Handshake.LeaseIsRoundedUp | lib/dhcpmsg/assemble.go:156-160 | a lease one nanosecond below 2^24 + 1 seconds is sent as the longer one |
| Handshake.NetconfigIsConfigured | lib/client/dclient/dclient.go:112-129 | a client configures its interface with the address, router, mask, DNS, domain and lease that the server has configured for it |
| Outlived.SomeClientOutlivesLease | lib/server/netio.go:132-139 | a run from the start, and a client with the acknowledgement, whose lease ends after that of the server |
| Float64.FloatIsNearest | lib/client/dclient/dhcpstates.go:41-42 | no number of at most 53 significant bits is closer than the modelled `float64` conversion |
| Float64.TiesToEven | lib/client/dclient/dhcpstates.go:41-42 | of two values that are equally near, the even one is taken |
| Float64.FloatIsExact | lib/client/dclient/dhcpstates.go:41-42 | numbers of at most 53 significant bits are converted exactly |
| Float64.SecondsNear | lib/dhcpmsg/assemble.go:156-160 | of a fraction of a second, the conversion to seconds leaves nothing or makes a second |
| Float64.SecondsBelow | lib/dhcpmsg/assemble.go:156-160 | below 2^24 seconds it always rounds down |
| Float64.SecondsRoundUp | lib/dhcpmsg/assemble.go:156-160 | that bound cannot be raised |
| Deadlines.WireIsExact | lib/dhcpmsg/optshelper.go:84-89 | a lease off the wire and its half are exact as `float64` |
| Deadlines.SevenEighths | lib/client/dclient/dhcpstates.go:42 | the rebinding product is off by no more than 256 nanoseconds |
| Deadlines.DeadlinesAreOrdered | lib/client/dclient/dhcpstates.go:38-51 | now < t1 < t2 < tx for every lease off the wire of at least a minute, in both branches |
| Deadlines.ResumeStaysClose | lib/client/dclient/dclient.go:95-106 | a client resumed by t2 stays below its old end in the default branch, and at most four seconds above it otherwise, exactly if rebinding was asked for in the last five seconds |
| ClientStates.HeardIsUsable | lib/client/dclient/dclient.go:148-160 | whatever a round accepts has a router, assignable addresses, and durations off the wire of at least a minute |
| ClientStates.AckIsForOffer | lib/client/verify/verifyer.go:44-60 | a verified acknowledgement is for the address of the last reply |
| ClientStates.StepKeepsSound | lib/client/dclient/dhcpstates.go:11-87 | every round, whatever its inputs, keeps the invariant of its state |
| ClientStates.Life | lib/client/mclient.go:41-50 | a client is sound at every point of any sequence of rounds and resumptions |
| ClientStates.EveryLifeIsSound | lib/client/dclient/dclient.go:59-129 | the stored reply is verified from Selecting on and an acknowledgement of the accepted offer from ArpCheck on; a bound interface has exactly that address, a searching one none |
| ClientStates.AddressesDoNotMix | lib/client/dclient/sysstates.go:14-61 | the interface never goes from one address to another without losing the first |
| ClientStates.NetconfigIsExact | lib/client/dclient/dclient.go:112-129 | the interface gets the acknowledged address, the first router, MTU, DNS and domain, and the mask of the reply if it is ones before zeros, else that of the class of the address |
| ClientProgress.GetsAnAddress | lib/client/dclient/dclient.go:59-80 | a purge, any number of searches without an offer, an accepted offer, an accepted acknowledgement, no foreign ARP answer and a successful configuration lead to Bound with exactly the offered address |
| ClientProgress.KeepsSearching | lib/client/dclient/dhcpstates.go:11-21 | a client that gets no offer goes on searching, without an address |
| ClientProgress.DiscoveringRound | lib/client/dclient/dhcpstates.go:11-21 | an accepted offer is stored and leads to Selecting; silence changes nothing |
| ClientProgress.SelectingRound | lib/client/dclient/dhcpstates.go:24-35 | an accepted acknowledgement is stored and leads to the ARP check; a refusal or silence leads back to the search |
| ClientProgress.ArpCheckRound | lib/client/dclient/sysstates.go:43-51 | an address that only the client itself answers for is configured next; a foreign answer takes all addresses away and starts over |
| ClientProgress.IfconfigRound | lib/client/dclient/sysstates.go:29-40 | a configuration that succeeds makes the client bound with exactly its address; one that fails leaves none |
| ClientProgress.BoundRound | lib/client/dclient/dhcpstates.go:38-55 | the deadlines are half, seven eighths (up to 256 nanoseconds) and all of the lease, or the times of the server if they are in order and the first is over a minute |
| ClientProgress.Renews | lib/client/dclient/dhcpstates.go:58-71 | an accepted renewal makes a bound client bound again, with its address kept throughout |
| ClientProgress.Rebinds | lib/client/dclient/dhcpstates.go:58-87 | an unanswered renewal leads to Rebinding with the address kept, and an accepted rebinding to Bound again |
| ClientProgress.RenewingRound | lib/client/dclient/dhcpstates.go:58-71 | an accepted renewal leads to the ARP check, a refusal to a purge, silence to rebinding |
| ClientProgress.RebindingRound | lib/client/dclient/dhcpstates.go:74-87 | an accepted rebinding leads to the ARP check, anything else to a purge |
| ClientProgress.ResumeRound | lib/client/dclient/dclient.go:95-110 | a client that is resumed in Bound, Renewing or Rebinding has five seconds left for a rebinding; any other starts over |
| ClientStates.BoundIsOrdered | lib/client/dclient/dhcpstates.go:38-55 | the deadlines set in Bound are in order for whatever lease was accepted |
| ClientTimes.EveryLifeIsOnTime | lib/client/dclient/dclient.go:148-160 | with rounds that follow each other and end at their deadlines, a client renews before t1 is over and rebinds before tx is |
| ClientTimes.BoundResolves | lib/client/dclient/dhcpstates.go:38-87 | a bound client that is not resumed gives up its address or has it acknowledged again within three rounds and before its lease ends |
| ClientTimes.ResumedResolves | lib/client/dclient/dclient.go:95-110 | a resumed client does so in its next round and within five seconds |
| Dclient.Dclient.Run | lib/client/dclient/dclient.go:59-92 | the loop lives the rounds of its input, and the invariant holds after each |
| Dclient.Dclient.RunState | lib/client/dclient/dclient.go:61-80 | the switch runs the function of the state, with its next and fail states |
| Dclient.Dclient.RunStateDiscovering | lib/client/dclient/dhcpstates.go:11-21 | an accepted offer is stored and selected, anything else changes nothing |
| Dclient.Dclient.RunStateSelecting | lib/client/dclient/dhcpstates.go:24-35 | an accepted acknowledgement is stored and checked, anything else leads back to discovery |
| Dclient.Dclient.RunStateBound | lib/client/dclient/dhcpstates.go:38-55 | the three deadlines, from the server's times if usable |
| Dclient.Dclient.RunStateRenewing | lib/client/dclient/dhcpstates.go:58-71 | accepted, refused and unanswered renewals lead to the ARP check, to a purge and to rebinding |
| Dclient.Dclient.RunStateRebinding | lib/client/dclient/dhcpstates.go:74-87 | an accepted rebinding leads to the ARP check, anything else to a purge |
| Dclient.Dclient.RunStateArpCheck | lib/client/dclient/sysstates.go:43-51 | an answer from someone else takes the address away and starts over |
| Dclient.Dclient.RunStateIfconfig | lib/client/dclient/sysstates.go:29-40 | the interface gets the acknowledged address, or, if that fails, loses all |
| Dclient.Dclient.BuildNetconfig | lib/client/dclient/dclient.go:112-129 | the first router exists; mask from the reply if contiguous, else that of the class |
| Dclient.Dclient.ResumeClient | lib/client/dclient/dclient.go:95-110 | a client with an address rebinds with five seconds to go, any other one starts over |

## Left out

- Sockets, netlink, ARP traffic, scripts, resolv.conf, logging, flags and the parsing of the configuration text: results of these are parameters or inputs.
- The delay before an answer to a discovery, the send loop and its back-off, and the sleeping until a deadline: only times as inputs.
- The rate limiter of the client, whose exhaustion ends the program.
- The hardware address that a reply is sent to; the addresses in the packet itself are modelled.
- ARP packet encoding and the list of vendor prefixes: codecs without state.
- Removing the configuration of an interface is taken to succeed; a mask that changes while the address stays the same is not tracked, since the interface is a set of addresses.
- The `Clients` lock is not modelled, since two of its methods release it at once; every method of `IPDB` is one step under the lock of `IPDB`.
- A clock that goes backwards.
- Network.ManagedAddresses: a /31 network manages nothing, and a server on one does not start; its inverted range is not used any further.
- Checksum.SetV4Checksum: a computed UDP checksum of zero stays zero, as in the code; the all-ones form of RFC 768 is not claimed.
- Options.LeaseDurationRoundTrip: promises nothing for a fraction of a second from 2^32 - 1 seconds on; for 2^32 seconds or more, where Go leaves the conversion to `uint32` to the implementation, the model takes the number modulo 2^32.
- Interop.NackInterop: transaction numbers of refusals are not checked by the client, so no match is claimed.
- ServerSafety.OwnAddressIsNeverGranted: for DUIDs other than the server's internal one; a client that sends that very DUID is treated as the server.
- Handshake.OfferBecomesAck: for handlers that are not overwritten; what becomes of the others is stated by Answers.RequestIsAckedIff, without the wire.
- The bytes of a DUID that change in the middle of one database call: an overwrite is a step between calls.
- DhcpRoundTrip.MessageRoundTrip: hardware addresses of more than 16 bytes are cut by their field and do not come back.
- Server.New: the order in which the map of configured clients is visited is that of the given sequence.
