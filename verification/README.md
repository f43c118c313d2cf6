# Verification of split-ping

split-ping measures one-way packet loss and latency between two hosts. This project models its
two hard parts in Dafny 4.11 and proves properties of them; `dafny verify dfyconfig.toml` checks
everything.

**The ICMP codec** (`icmp/`). A message body is written into one byte buffer: four leading octets,
an original datagram padded with zeros, and an extension structure with its own checksum around a
list of objects of different kinds. The parser finds the structure from a one-octet length
attribute, falls back to offset 128 for old senders, and walks the list. The main results: the
checksum is the byte-swapped RFC 1071 checksum up to 131074 octets, and on longer buffers exactly
when the accumulator wraps harmlessly; every object kind, the object list, the multi-part body, the
message bodies and whole messages come back from a round trip in canonical form, with the exact
data length up to which that holds; marshalling again what was parsed gives the same octets; sealed
messages and structures of any length verify, even where the accumulator wraps; in a structure with
a checksum any one changed octet is detected, unless the change empties the checksum field; the
parser accepts any body of at least four octets and never loses data that is not followed by a
valid structure.

**The session protocol and the loss estimator** (`main.go`, `sessionhandle.go`, `ntp.go`). Each end
keeps a ring of the last 32 pings it received and sends the whole ring back once a second. The
main results: for any packets at all, a session echoes at most one handshake and starts at most one
sender, and its ring is its history; for a client and a server over a network that loses, repeats
and reorders packets, the client is activated after the server, no ping is recorded before both
are, and every acknowledgement is true. In every such run the reported loss is exactly the number of
seconds without a ping, less those whose identifier an old ping still shows, plus those whose pings
were pushed out of the ring. When pings arrive in the order they were sent, none are pushed out and
the report is never too high; repeated packets can make it as high as it goes although nothing was
lost. The garbage collector keeps exactly the sessions with a ping in the last minute; the
calibrated clock offset is the median of five.

## Layout

| file | what it holds |
|---|---|
| `Bytes.dfy`, `Wrappers.dfy` | octets, big-endian integers, buffer writes; results and errors |
| `Checksum.dfy` | the checksum, its bound, RFC 1071, sealing, error detection |
| `Mpls.dfy`, `InterfaceInfo.dfy`, `InterfaceIdent.dfy` | the three kinds of extension objects |
| `Extension.dfy` | object lists, the extension header, finding and reading the structure |
| `Multipart.dfy`, `MultipartLaws.dfy` | the multi-part body and its laws |
| `Bodies.dfy`, `FixedBodies.dfy`, `Message.dfy` | message bodies and whole messages |
| `Ping.dfy`, `Loss.dfy` | the ring of pings; the estimator |
| `Session.dfy`, `Lifecycle.dfy`, `Pair.dfy`, `Host.dfy` | handlers, one session's runs, two ends, the session table |
| `Ntp.dfy` | the choice of the clock offset |

## How to read the model

Code that changes things is a method over arrays or over the fields of a class, and is proved equal
to a specification function (`Encode`, `Decode`, `OnPacket`, `Loss`, `Collect`, ...). The laws are
lemmas about those functions, so they hold of the methods. `Canonical` is always what the wire can
carry of a value: integers cut to their fields, unsent fields dropped, addresses in native form.

Go's `&^`, shifts and masks are written with division and remainder. A slice `b[off:]` is the array
with an offset. A fixed-size array inside a struct, which Go copies by value, is a sequence of that
length.

The attributes of an interface information object are a list, in the order in which the source's
loops test the bits of `attrs` (icmp/interface.go lines 90-105 and 206-226). That the loops test
and clear the bits in this order is thus part of the model; that a sub-type's low bits list exactly
the attributes present is proved.

Where the code and its comments or documentation differ, the model follows the code:

- The comment in `validExtensions` (icmp/extension.go lines 139-141) asks for a single
  identification object or raw objects only; the code also accepts every list with two or more
  identification objects (`Extension.LaxerThanIntended`).
- `getLoss` reports losses out of 32, but looks at 31 identifiers, or at 30 when it has to step over
  the unused 0 (`Loss.NeverAllLost`).
- The collector has a branch for sessions without a handshake after twenty seconds. It is never
  taken (`Host.SweepKeepsTheLive`): a session without any ping is removed by the first pass,
  however young it is (`Host.SweepRemovesTheNew`).
- The reported loss can be off in both directions: repeated packets look like loss
  (`Loss.RepetitionLooksLikeLoss`), and a session on which nearly all seconds are missed can look
  healthy (`Host.LiveSessionLooksHealthy`).

Handlers and goroutine steps are atomic, although the Go code does not lock a session's fields. All
clocks are one clock, and one call sees one time.

## Model

| member | source | states |
|---|---|---|
| Checksum.Compute | icmp/message.go:41-53 | the loop, with its 32-bit accumulator, computes the two-fold complement of the word sum modulo 2^32, odd lengths included |
| Checksum.NoOverflow | icmp/message.go:42-49 | up to 131074 octets the accumulator does not overflow |
| Checksum.TwoFoldsSuffice | icmp/message.go:50-52 | two folds reduce every 32-bit sum modulo 65535 |
| Checksum.SumIsRfc1071 | icmp/message.go:41-53 | up to that bound the result is the byte swap of the RFC 1071 one's-complement checksum, so storing it low octet first puts the RFC's value on the wire |
| Checksum.SumIsRfc1071Iff | icmp/message.go:41-53 | for buffers of any length: it agrees with RFC 1071 if and only if the accumulator wrapped a multiple of 65535 times and not to zero |
| Checksum.BoundIsSharp | icmp/message.go:41-53 | one octet beyond the bound there is a buffer with a wrong checksum |
| Checksum.SealedSumIsZero | icmp/message.go:106-110 | combining the checksum into its zeroed field makes the checksum of the result zero, for buffers of any length, even where the accumulator wraps |
| Checksum.SumZeroIff | icmp/message.go:41-53 | for any length the checksum is zero if and only if the accumulator ends at a non-zero multiple of 65535 |
| Checksum.OneOctetChangeDetected | icmp/message.go:41-53 | changing any one octet of a buffer of any length with checksum zero gives another checksum |
| Mpls.MarshalLabel | icmp/mpls.go:49-54 | the stores and bit operations write exactly the 20/3/1/8-bit entry, and nothing else |
| Mpls.Marshal | icmp/mpls.go:43-58 | the object is written inside its own length, for any number of labels |
| Mpls.Parse | icmp/mpls.go:60-77 | reads entries until fewer than four octets are left |
| Mpls.LabelRoundTrip | icmp/mpls.go:49-73 | the four fields share no bit: each comes back cut to its width |
| Mpls.RoundTrip | icmp/mpls.go:43-77 | a stack of any length comes back, out-of-range fields cut to their widths |
| Mpls.CanonicalEncodes | icmp/mpls.go:43-77 | what was parsed marshals to the same octets |
| InterfaceInfo.AttrsAndLen | icmp/interface.go:40-69 | the attributes present and the length of the object that holds them |
| InterfaceInfo.LenBySum | icmp/interface.go:40-75 | the length as the sum over the attributes, at most 96 octets |
| InterfaceInfo.Marshal | icmp/interface.go:87-134 | header and attributes are written in order inside the object's own octets, nothing outside changes |
| InterfaceInfo.MarshalName | icmp/interface.go:161-166 | the length octet, the name, and zeros up to a multiple of four |
| InterfaceInfo.Parse | icmp/interface.go:195-231 | the attribute loop with its early end and its errors, and the zone |
| InterfaceInfo.FieldRoundTrip | icmp/interface.go:109-193 | reading an attribute undoes writing it, whatever follows |
| InterfaceInfo.RoundTrip | icmp/interface.go:87-231 | every combination of attributes comes back as the canonical struct |
| InterfaceInfo.WellFormedRoundTrip | icmp/interface.go:87-231 | a struct that the wire carries completely comes back unchanged |
| InterfaceInfo.CanonicalEncodes | icmp/interface.go:87-231 | the parsed struct marshals to the octets it was parsed from |
| InterfaceInfo.ZoneIsNameForIPv6 | icmp/interface.go:227-229 | in any parsed object the zone is the name when there are an IPv6 address and a name, and empty otherwise |
| InterfaceIdent.Marshal | icmp/interface.go:277-292 | the object is written inside its own octets |
| InterfaceIdent.Parse | icmp/interface.go:294-320 | the three forms and their length checks |
| InterfaceIdent.RoundTrip | icmp/interface.go:277-320 | every encodable object comes back with only the identified form |
| InterfaceIdent.CanonicalEncodes | icmp/interface.go:277-320 | the parsed object marshals to the same octets |
| Extension.Marshal | icmp/multipart.go:66-88 | each object changes only its own octets and advances the offset by its length |
| Extension.MarshalAll | icmp/multipart.go:65-88 | the objects tile their region exactly |
| Extension.ParseObjects | icmp/extension.go:81-113 | the parse loop ends on any input and returns the list or the first error |
| Extension.ObjectLength | icmp/extension.go:83-86 | every encodable object announces its own length |
| Extension.ObjectRoundTrip | icmp/extension.go:87-110 | one object of any kind comes back canonical |
| Extension.ListRoundTrip | icmp/extension.go:81-113 | the parse loop recovers the whole list in order |
| Extension.WellFormedIsCanonical | icmp/extension.go:81-113 | an object whose fields have their types' values and widths is its own canonical form |
| Extension.CanonicalAllEncodes | icmp/extension.go:81-113 | the parsed list marshals to the same octets and is well formed |
| Extension.ValidExtensionHeader | icmp/extension.go:29-39 | version 2, and a checksum that is absent or right |
| Extension.StructureIsValid | icmp/multipart.go:64-91 | every marshalled structure of any length is accepted, also when its checksum field is zero |
| Extension.OneOctetChangeIsDetected | icmp/extension.go:29-39 | a change of one octet of a valid structure with non-zero checksum field is accepted if and only if it empties that field |
| Extension.FindStructure | icmp/extension.go:58-80 | the repair of the length attribute, and the fallback to offset 128 |
| Extension.ParseExtensions | icmp/extension.go:48-114 | where the structure is and the objects in it, or the error |
| Extension.ValidExtensions | icmp/extension.go:116-149 | which objects a message type may carry |
| Extension.LaxerThanIntended | icmp/extension.go:128-145 | for every list: what a request may carry is what is meant, one identification alone or raw objects only, or any list with two or more identifications |
| Extension.TwoIdentsAreAllowed | icmp/extension.go:128-145 | such lists exist |
| Extension.CanonicalAllowed | icmp/extension.go:116-149 | parsing and canonical form do not change whether the objects are allowed |
| Multipart.BodyDataLen | icmp/multipart.go:11-31 | the accumulated lengths, the header counted exactly for a non-empty list |
| Multipart.OrigDatagramLen | icmp/multipart.go:36-54 | at least 128 octets and a whole number of units, never shorter than the data |
| Multipart.MarshalBody | icmp/multipart.go:59-102 | the buffer holds leading octets, padded data and sealed structure |
| Multipart.MarshalLength | icmp/multipart.go:92-99 | the length octet of the protocol is written, and nothing else |
| Multipart.MarshalStructure | icmp/multipart.go:64-91 | header, objects and checksum are written behind what is already there |
| Multipart.ParseBody | icmp/multipart.go:106-127 | data and objects, or everything as data |
| MultipartLaws.RoundTrip | icmp/multipart.go:59-127 | data up to 255 units comes back zero-padded, with the canonical objects in order |
| MultipartLaws.WellFormedRoundTrip | icmp/multipart.go:59-127 | well-formed objects come back as the very same list |
| MultipartLaws.RoundTripIff | icmp/multipart.go:92-99 | the data comes back if and only if it is at most 1020 (ICMPv4) or 2040 (ICMPv6) octets |
| MultipartLaws.RemarshalIsFixedPoint | icmp/multipart.go:36-127 | marshalling what was parsed from a marshalled body gives the same octets |
| MultipartLaws.PadAgain | icmp/multipart.go:36-54 | padding is idempotent |
| MultipartLaws.HeaderSurvivesLeadingWrites | icmp/multipart.go:89-99 | the structure stays valid whatever is written to the four leading octets afterwards |
| MultipartLaws.EchoRoundTrip | icmp/extension.go:59-63 | the objects of an extended echo come back whatever its leading octets are |
| MultipartLaws.DataIsPrefix | icmp/multipart.go:106-127 | on any input of four octets or more the data is a prefix of the rest, cut short only where a valid header starts |
| MultipartLaws.PlainRoundTripIff | icmp/multipart.go:106-127 | data without objects comes back if and only if it is shorter than 136 octets, or has no valid header at 128, or has a broken object behind that header |
| MultipartLaws.BrokenObjectKeepsData | icmp/multipart.go:117-120 | the third case exists |
| Bodies.Marshal | icmp/dstunreach.go:29-43 | the marshaller of each body, with its error cases |
| Bodies.MarshalError | icmp/timeexceeded.go:28-42 | the protocol decides the type, the type the objects allowed |
| Bodies.MarshalParamProb | icmp/paramprob.go:30-50 | the pointer in octet 0, or in all four for ICMPv6, where no objects are written |
| Bodies.MarshalEcho | icmp/echo.go:71-94 | identifier, sequence number and flag over the sealed body |
| Bodies.Parse | icmp/paramprob.go:53-71 | the parser of each body, with its error |
| Bodies.RoundTrip | icmp/echo.go:71-112 | every body that meets the limits comes back in canonical form through its own parser |
| Bodies.RemarshalIsFixedPoint | icmp/paramprob.go:30-71 | and marshals again to the same octets |
| FixedBodies.Marshal | icmp/timestamp.go:29-37 | the bodies without extensions, field by field |
| FixedBodies.RoundTrip | icmp/echo.go:30-50 | they come back with integers cut to their fields |
| Message.PseudoHeader | icmp/ipv6.go:15-21 | both addresses in 16-octet form, zeros, and the next header 58 |
| Message.Marshal | icmp/message.go:77-112 | header, body and checksum, or the body's error; an ICMPv6 message without pseudo-header keeps a zero checksum |
| Message.FillLength | icmp/message.go:103-104 | the message's length goes behind the two addresses of the pseudo-header |
| Message.SealedIsZero | icmp/message.go:106-111 | sealed messages of any length verify: for ICMPv4 alone, for ICMPv6 behind the pseudo-header with its length |
| Message.FieldIsRfc1071Iff | icmp/message.go:106-111 | the checksum field holds the RFC 1071 checksum in network order and nothing else is changed, if and only if the accumulator wraps harmlessly, so always up to 131074 octets |
| Message.Parse | icmp/message.go:141-164 | the type selects the parser; unknown types keep their octets |
| Message.MatchingMarshals | icmp/message.go:92-98 | a message whose body goes with its type and is within its limits is marshalled without an error |
| Message.RoundTrip | icmp/message.go:77-164 | a whole message comes back with its code modulo 256, its checksum and its canonical body |
| Message.RemarshalIsFixedPoint | icmp/message.go:77-164 | marshalling it again gives the same octets, checksum included |
| Ping.RecordAgrees | main.go:282-287 | recording a ping in the next slot keeps the ring in agreement with the history |
| Ping.HoldsRecent | main.go:282-287 | the ring holds exactly the last 32 pings, besides zero entries before that |
| Ping.ZeroIdIff | main.go:381-384 | with non-zero identifiers the guard of `getLoss` fires exactly while fewer than 32 pings have come |
| Ping.SearchForId | main.go:408-416 | whether an identifier is in the ring |
| Loss.GetLoss | main.go:377-406 | the walk ends and counts the missing identifiers of the window in both rings |
| Loss.WindowIsRecentSeconds | main.go:386-396 | the walk visits exactly the identifiers of the last 31 or 30 seconds, in order |
| Loss.WindowIsDistinct | main.go:386-396 | none twice, and never 0 |
| Loss.NeverAllLost | main.go:405-405 | the losses are at most 31 although 32 is reported as their number |
| Loss.IdMeans | main.go:397-402 | for any history, repeated and reordered pings included: the ring has the identifier of a second if and only if one of the last 32 pings was sent a multiple of 255 seconds from it |
| Loss.CountIsExact | main.go:387-403 | hence the count is the number of seconds really missed, less those hidden by a ping of another second, plus those whose pings are no longer in the ring |
| Loss.RxLossIsExact | main.go:377-406 | the same of the loss on reception, from 32 pings on |
| Loss.TxLossIsExact | main.go:397-399 | the same of the loss on transmission, over the peer's ring |
| Loss.ExceedsIff | main.go:387-403 | the count is too high if and only if more seconds are pushed out than hidden |
| Loss.NoneEvicted | main.go:282-287 | when pings arrive in the order they were sent, no second of the window is pushed out |
| Loss.CountAgainstTruth | main.go:387-403 | then the count never exceeds the seconds really missed, equals them if and only if no second is hidden, and so when no ping in the ring is older than 255 seconds |
| Loss.RxLossIsSound | main.go:377-406 | the same of the loss on reception in order, from 32 pings on |
| Loss.TxLossIsSound | main.go:397-399 | the same of the loss on transmission in order |
| Loss.RepetitionLooksLikeLoss | main.go:287-287 | 32 pings, one a second, and then 32 copies of the last: everything is reported lost although nothing was |
| Loss.SparseLooksHealthy | main.go:377-406 | pings in 28 consecutive seconds and four more 57 seconds apart: 3 of 31 (2 of 30) seconds are reported lost although 30 (29) were missed |
| Loss.SilenceLooksPerfect | main.go:377-406 | of the function alone, since the collector has removed so silent a session: after 32 pings and 255 seconds of silence it counts no loss although every second was missed |
| Loss.TxLatency | main.go:360-370 | the latency of the most recently sent of the acknowledged pings, 0 if there is none |
| Session.Session.GetNextAckSlot | main.go:167-174 | the next slot, wrapping from 31 to 0 |
| Session.Session.Invite | sessionhandle.go:71-78 | the session of the asking end |
| Session.Session.Accept | sessionhandle.go:187-193 | the session of the asked end |
| Session.Session.HandlePacket | main.go:255-291 | the whole new state, the echo and the notification, for every packet |
| Session.Session.HandleInboundHandshake | main.go:315-353 | activation, reply address and peer address; an echo only at the first activation |
| Session.Session.WaiterTick | sessionhandle.go:108-132 | gives up after a minute without activation; the inviting end sends a handshake |
| Session.Session.OnActivation | sessionhandle.go:213-217 | sets the activation |
| Session.Session.SenderTick | main.go:187-211 | gives up after a minute without pings; otherwise sends the ring with the second's identifier |
| Lifecycle.Safety | sessionhandle.go:71-138 | in every run, under any packets: TCP-activated, one echo exactly when activated, at most one sender, reply address set before it, no ping before activation |
| Lifecycle.RingEqualsHistory | main.go:282-287 | in every run the ring holds exactly the last 32 accepted pings |
| Lifecycle.NeverUndone | main.go:331-353 | activation, reply address and identity are never taken back |
| Lifecycle.StepInv | main.go:255-355 | every event keeps the invariant of a session |
| Lifecycle.SenderAlwaysSends | main.go:207-211 | a running sender always has a reply address |
| Pair.ActivationOrder | main.go:277-353 | in every run the client is activated after the server, and no ring takes a ping before both are |
| Pair.EchoesAreBounded | main.go:331-353 | in every run at most two handshakes are echoed and each end starts at most one sender |
| Pair.AcknowledgementsAreTrue | main.go:191-291 | in every run each non-empty acknowledgement received names a ping really sent, with its identifier and time, received no earlier than sent |
| Pair.ReportedLossIsExact | main.go:357-406 | in every run, once an end has recorded 32 pings, the loss on reception is the number of seconds that gave it no ping, less those hidden, plus those pushed out; it is too high if and only if more are pushed out than hidden |
| Pair.ReportedLossIsSound | main.go:357-406 | in every run in which those pings came in the order they were sent, it is never too high, right if and only if no second is hidden, and so when no ping in the ring is older than 255 seconds |
| Pair.ReportedTxLossIsExact | main.go:357-406 | in every run the last ping received carries the ring its sender had after the pings it had recorded when sending it, and the loss on transmission is exact in the same sense about those pings |
| Pair.ReportedTxLossIsSound | main.go:357-406 | in every run in which the peer recorded its pings in order, it is never too high about those pings, and right if and only if no second is hidden |
| Pair.StepInvariant | sessionhandle.go:101-138 | every move of the two ends and the network keeps the invariant |
| Pair.HandshakeCanComplete | sessionhandle.go:101-138 | one handshake delivered each way activates both ends, and a ping is then recorded |
| Host.Table.HandlePacket | main.go:245-291 | a packet changes only the session it names |
| Host.Table.StartSession | sessionhandle.go:70-79 | a new session under its identifier, the others unchanged |
| Host.Table.AcceptSession | sessionhandle.go:184-194 | the same at the asked end |
| Host.Table.CollectGarbage | main.go:122-137 | the table after a pass, and which sessions each branch removed, whatever the iteration order |
| Host.SweepKeepsTheLive | main.go:119-138 | after any run a pass keeps exactly the sessions with a ping in the last minute, all of them activated; the twenty-second branch is dead |
| Host.SweepRemovesTheNew | main.go:124-128 | a session made in either way is removed by the next pass, early or late, whatever happens in between, unless it has recorded a ping |
| Host.SweepRemovesTheSilent | main.go:124-128 | after any run a pass removes a session that has recorded no ping |
| Host.LiveSessionLooksHealthy | main.go:119-406 | a run in which every pass keeps the session and yet 3 of 31 (2 of 30) seconds are reported lost although 30 (29) were missed |
| Host.StepsAreTheTables | main.go:119-355 | creation, reception and passes of a run are what the table's methods do |
| Host.GoroutinesAreTheSessions | sessionhandle.go:101-220 | the goroutines' steps of a run are the rounds that the session's methods do |
| Ntp.TriplePoll | ntp.go:178-200 | two queries in three zeroed cells: the medians with a zero, and the number of failures |
| Ntp.Accept | ntp.go:129-132 | the test that rejects a server |
| Ntp.AcceptedIff | ntp.go:129-141 | with positive round-trip times a server is accepted if and only if both queries gave non-zero offsets of one sign; the one closer to zero is kept |
| Ntp.ConsiderFive | ntp.go:154-163 | five cells with the lowest round-trip times, zeros if there are fewer |
| Ntp.Calibrate | ntp.go:154-175 | the offset lies in every interval that holds three of the five, whatever the order of the answers and of ties |
| Ntp.OffsetIsDetermined | ntp.go:164-175 | at most one offset does |
| Ntp.MiddleIsZeroIff | ntp.go:164-175 | the offset is 0 if and only if at most two of the five are positive and at most two negative |
| Ntp.FewServers | ntp.go:155-175 | with at most five accepted servers, whose places zeros fill: the offset is 0 if and only if at most two servers gave a positive offset and at most two a negative one |

## Left out

- Sockets, TCP invitations, DNS, `endpoint.go`, `listen_*.go`, `sys_freebsd.go`, PPS devices, metrics, flags and logging: input and output.
- `ParseIPv4Header`: it copies header fields one by one and has no part in the codec.
- The msgpack encoding of packets, a library: packets are records, and an undecodable packet is an absent one.
- Data races between handlers and goroutines: each step is atomic.
- Different clocks: the system clock, the corrected clock and the peer's clock are one clock, so the correction's sign and drift are not modelled.
- Liveness of the handshake: the notification may find nobody listening and a lost echo is not sent again, so a handshake need not complete; that it can is shown.
- Choice and reuse of session identifiers: statements are about one session object, or one pair of them.
- Sending on a deleted session: in `Host` only sessions in the table go on; `Lifecycle` covers a session object whether or not it is in the table.
- Go's sort functions: modelled as methods on values that promise an ordered permutation, not in place.
- Nil and empty slices are not distinguished, and a nil body pointer inside a non-nil interface is left out.
- Integers are unbounded where Go has 64 bits; all narrower widths are written out.
- InterfaceInfo.Marshal: requires names of at most 63 octets, because a longer name is copied past its object into the next one.
- InterfaceIdent.Marshal: requires names of at most 256 octets, because a longer name is copied past its object into the next one.
- Extension.ListRoundTrip: requires raw objects of at least four octets that announce their own length, since others change how the rest of the list is read.
- Message.Marshal: requires a pseudo-header only with ICMPv6 and of 40 octets, and builds a fresh buffer where Go may append to the caller's.
- Message.RoundTrip: requires a type from 0 to 255 whose parser reads the kind of body given; marshalling itself accepts any combination.
- Loss.CountIsExact: requires a time of at least 31 seconds after 1970, as do the statements that follow from it.
- Loss.GetLoss: takes the second as an input; both readings of the clock in `getStats` and `getLoss` are one.
