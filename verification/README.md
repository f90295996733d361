# byedpi: the data structures and protocols behind the proxy, modelled and proved

byedpi is a local proxy that alters how requests leave the machine: it splits and reorders them,
rewrites TLS ClientHellos, remembers per address which strategy worked, and falls back to another
strategy when one fails. This project models the parts of it that are hard to get right and
proves what they are for:

- **The key pool** (`Keys`, `KeyOrder`, `BitOrder`, `HostOrder`, `KavlTree`, `KavlHeight`,
  `KavlRotate`, `KavlInsert`, `KavlErase`, `KavlIterator`, `KeySearch`, `HostSearch`, `Mpool`,
  `Match`, `Cache`): an intrusive AVL tree edited in place, searched with comparators that are no total
  orders, holding CIDR blocks, host names and cached addresses.
- **TLS record surgery** (`Bytes`, `Offsets`, `TlsRecords`, `MergeRecords`, `Sni`, `TlsTimer`):
  cutting a ClientHello into records and joining them again, replacing the server name, and an
  incremental record reader.
- **The resumable splitter** (`Desync`): sending a request in parts over any number of calls.
- **The strategy groups** (`Groups`): a linked list reordered in place, and masks of used groups.
- **The event loop** (`Timers`, `EventPool`): slots that are reused, events that go stale, pairs
  that are closed together, a sorted timer list.

Objects that the program updates in place are classes here, and their methods have its loops and
branches; buffers are arrays. What a method does is tied to functions of the old state, and the
properties are lemmas about these. Integers are unbounded; where the program's width or sign
matters (the 16-bit lengths of TLS, `char` and its shifts, the 32-bit node count) it is written
out. Clocks, `send`, `rand`, `epoll_wait` and the checks on addresses and protocols are
parameters, so that a result holds for whatever they do.

## Model

| member | source | states |
|---|---|---|
| KavlHeight.FibHeight | kavl.h:73-78 | A tree of height h with correct balance factors has at least Fib(h+2) - 1 nodes. |
| KavlHeight.HeightBound | kavl.h:69 | A tree whose node count fits the 32-bit `size` is at most 45 levels high; the walks of insertion, removal and iteration assert that their 64-entry arrays are never overrun on the strength of it. |
| KavlRotate.SingleRotation | kavl.h:99-108 | kavl_rotate1 and the new balances turn the heavy tree into a correct AVL tree in the heap: pointers, sizes, balances. |
| KavlRotate.DoubleRotation | kavl.h:110-127 | The same for kavl_rotate2, whichever way the inner node leans. |
| KavlRotate.SingleOrder | kavl.h:99-108 | A rotation keeps the in-order sequence. |
| KavlInsert.Find | kavl.h:81-95 | The node found is the one at the search's in-order position, null exactly if none compares equal, and `cnt` is its rank. |
| KavlInsert.Insert | kavl.h:129-173 | On any AVL tree: afterwards an AVL tree again (balance = height right - height left in -1..1, size = node count, no sharing) whose in-order sequence is the old one with just the new node put in where the search ended; a related node is returned instead and nothing changes. |
| KavlErase.Erase | kavl.h:175-256 | The same for removal, through all three ways of unlinking, for a key and for the first node: exactly the node that the search meets goes, and it is returned. |
| KavlErase.Remove | kavl.h:175-256 | The part behind the search: unlinking, the sizes on the path, and the rebalancing walk with both rotations. |
| KavlIterator.Itr.Next | kavl.h:302-310 | One step yields the rest of the in-order sequence without its first node; the stack stays inside its 64 entries. |
| KavlIterator.Traverse | mpool.c:155-182 | The first/next loop visits every node once, in order. |
| Keys.HostCompare | mpool.c:38-53 | The pointer loop of host_cmp computes the comparison by mismatch from the end. |
| BitOrder.ShiftOrder | mpool.c:19-24 | Shifting a signed char right and casting to a byte keeps the order of the top bits. |
| BitOrder.BitCmpMeaning | mpool.c:10-26 | bit_cmp is the lexicographic order of the bits that both keys have, and 0 exactly if one key is a prefix of the other. |
| BitOrder.BitsLawful | mpool.c:10-26 | On all bit strings bit_cmp is antisymmetric and monotone towards third keys, and covering is transitive: what a search needs although it is no total order. |
| HostOrder.HostCmpMeaning | mpool.c:38-53 | host_cmp is 0 exactly for a domain and its parent domains. |
| HostOrder.HostsLawful | mpool.c:38-53 | The laws hold on every set of names without a pair h, g where g ends in h behind a character below the dot. |
| HostOrder.OnlyDash | main.c:295-310 | Among the characters that parse_hosts lets through that character can only be '-'. |
| HostOrder.LexLawful | mpool.c:38-53 | The lexicographic order of the reversed names, which host_cmp agrees with wherever it does not answer 0, obeys the laws on every set of names. |
| KeySearch.SearchExact | kavl.h:81-95 | On pairwise unrelated keys in order the tree search refines the linear scan: it meets a related key if and only if there is one, and otherwise ends between the keys below and above. |
| KeySearch.CoarserSearch | kavl.h:81-95 | A search for a prefix of x stops at the node of x if and only if no node above it is related to the prefix. |
| HostSearch.InsertedLex | mpool.c:104-117 | Any host name that meets none, put where the search with host_cmp ended, keeps that order; so every pool of host names is in it. |
| HostSearch.MeetsItself | mpool.c:115-116 | In such a tree, if the search for x meets a name that x covers, the search for that name meets it again: the mem_delete in the retry loop takes out the element just met. |
| Mpool.Pool.Add | mpool.c:104-124 | mem_add on any host names or bit strings: the delete-and-retry loop ends, `count` is the node count, the names stay in order; only elements that the key covers go, and the one returned, old or new, covers the key. For bit strings, and host names without a dash pair, the keys stay pairwise unrelated, and either the key was covered and nothing changed, or exactly the keys it covers made way for it. |
| Mpool.Pool.Delete | mpool.c:127-139 | mem_delete takes out exactly the element that the search meets. |
| Mpool.Pool.Get | mpool.c:82-89 | mem_get returns the element that the search meets; on keys without a dash pair there is one if and only if a stored key is related to the one asked for. |
| Mpool.AddIsUnion | mpool.c:104-124 | For every key a, dash pairs or not: covered after mem_add if and only if covered before or covered by the new key. |
| Mpool.AntichainApart | mpool.c:114-118 | What covers a key and what it covers are never stored together, so the retry loop cannot throw out keys and then give up. |
| Mpool.Fill | main.c:372-411 | Any list given to an empty pool: the pool covers exactly what some key of the list covers. |
| Match.HostExact | extend.c:224-238 | For every tree of host names in lexicographic order from the end, which mem_add keeps for every list: check_host recognises exactly the stored hosts and their subdomains if and only if none is hidden, that is, passed on its way by a host that extends it behind a dash or a dot, below no host that covers it. |
| Match.MissesSubdomain | extend.c:224-238 | Host by host: some subdomain is missed if and only if the host is hidden. |
| Match.DashCounterexample | mpool.c:43-52 | "a-b" above "b": "z.b" is not recognised. |
| Match.BuildDashed | mpool.c:104-124 | mem_add of "a-b" and then "b" to an empty pool builds that tree. |
| Match.KeepsRelated | mpool.c:104-124 | mem_add of "m.b" then stores it beside "b", although "b" covers it. |
| Match.OtherOrder | mpool.c:43-52 | With "b" above "a-b" the subdomain is recognised, so the order of the list matters. |
| Match.HostInList | extend.c:224-238 | For every list: what is recognised is listed or a subdomain of a listed host; all of that is recognised if nothing is hidden in the tree of the pool, and nothing is if the list has no dash pair. |
| Match.IpInList | extend.c:241-255 | For every list: recognised if and only if the address lies in a listed block or a listed block extends it; with blocks of the address's family, if and only if it lies in a listed block. |
| Match.ForeignFamily | extend.c:241-255 | An IPv6 block that makes check_ip answer yes for an IPv4 address outside of it. |
| Cache.EqBitlen | extend.c:67-77 | eq_bitlen is the length of the common bit prefix, and 8 n + 8 for identical keys. |
| Cache.CoversFor | extend.c:49-63 | A key covers an address if and only if it holds its family and its port and agrees with the address in the bits it has. |
| Cache.PrefixFor | extend.c:49-63 | The first `len` >= 32 bits of one address cover another one if and only if family, port and the first len - 32 bits of the addresses are the same. |
| Cache.FullKeyExact | extend.c:49-63 | The key of an address in full covers that address alone, port included. |
| Cache.MergedLength | extend.c:106-113 | A merged key is 64 - cache_pre to 63 bits long, or the address is covered already. |
| Cache.Add | extend.c:101-135 | cache_add keeps the cache free of related keys and IPv4 keys within [64 - cache_pre, 64] bits, adds just the prefix that the merge length says (so covers just that much more), loses no coverage, and returns an element for the family, the port and the address. |
| Cache.Run | extend.c:101-135 | In a run from the empty cache every address added stays covered, and every entry was made for an address added. |
| Cache.AnswerFor | extend.c:80-98 | What answers for an address after such a run was stored for an address of the same family and port with the same first 32 - cache_pre bits; without merging, and for IPv6, for that very address. |
| Cache.Get | extend.c:80-98 | The element covering the address, one for its family and port, is returned unless its age exceeds the ttl; then exactly one element goes, and it is the expired one if and only if no entry above it in the tree has the same first bits (the family for IPv4, family and four port bits for IPv6). |
| Cache.DeletedIff | extend.c:94-95 | That condition, for every tree. |
| Cache.WrongEntry | extend.c:94-95 | With another IPv4 entry at the root the search of mem_delete meets that one, and the expired entry stays. |
| Offsets.RoundsAre | desync.c:489-492 | The rounds of the loops over parts are the parts one after the other, each as often as configured and once at least. |
| TlsRecords.PartTls | packets.c:559-575 | The moves in place put a second header after `pos` bytes; a position behind the record inserts nothing and returns non-zero. |
| TlsRecords.SplitKeepsMeaning | packets.c:559-575 | The cut buffer reads as one record more than there are cuts, all with the original type and version, claiming the original length and carrying the original payload, also if the record goes on behind the buffer (section 5.1 of RFC 8446). |
| TlsRecords.Tamp | desync.c:473-517 | For every request and every list of positions: the length grows by 5 for every planned position and stays within the buffer; if all lie in the record the result is the cut buffer and nothing behind it changes; otherwise fewer headers are inserted than counted. |
| TlsRecords.TampAims | desync.c:441-500 | Where a single part cuts, by its flags: the second record begins with the byte of the request that is k behind the begin, the middle or the end of the host or a random place in it, or else k behind a random place, the middle or the end of the request, or with payload byte k; nothing is cut if there is no host. |
| TlsRecords.EachFurther | desync.c:489-500 | Its repetitions cut `s` bytes further each time. |
| TlsRecords.ChelloBytes | packets.c:333-338 | is_tls_chello by its three bytes. |
| TlsRecords.HeadersIff | desync.c:485-516 | As many headers as positions if and only if all positions lie in the record. |
| TlsRecords.Overcounted | desync.c:504-513 | If just the last one does not, the five bytes counted for it are bytes from behind the request. |
| TlsRecords.OvershootIff | packets.c:565-568 | There can be such a position if and only if the record ends before the request. |
| MergeRecords.MergeTlsRecords | packets.c:114-141 | merge_tls_records on every buffer on which its loop ends: the number of joins is that of the walk over the records of the buffer, followed by its last five bytes again and again; it returns five bytes a join and leaves the range after the last join with the two lengths written over it. |
| MergeRecords.EndsIff | packets.c:123-137 | The loop ends if and only if that walk never meets a fitting empty record of the type where the last five bytes begin or behind that; then within 2 n joins. |
| MergeRecords.EndsByTail | packets.c:123-137 | It ends if in no rotation the last five bytes read as the header of an empty record of the type. |
| MergeRecords.Rejoin | packets.c:114-141 | It undoes every cut of a whole record in place and returns 5 bytes a cut, unless the last five bytes look like one more fitting record. |
| MergeRecords.RejoinsIff | packets.c:123-133 | It stops at the last fragment if and only if they do not. |
| MergeRecords.StaleForever | packets.c:123-137 | If they look like an empty one, a further join leaves the range as it is and the loop does not end. |
| MergeRecords.GoesExactly | packets.c:123-133 | Its loop goes on while fragments are left, and afterwards if and only if the five stale bytes at the end look like one more fitting record. |
| MergeRecords.EmptyRecordsLoop | packets.c:123-137 | A request that is_tls_chello lets through, one byte and two empty records: the loop does not end. |
| Sni.FindTlsExtOffset | packets.c:74-95 | The loop finds what the walk over types and lengths finds. |
| Sni.WalkSplits | packets.c:74-95 | In a readable list the extension found is the first of its type and splits the list there. |
| Sni.WalkFinds | packets.c:74-95 | And the first extension of a type is found, wherever it is in the list. |
| Sni.BlockAt | packets.c:98-111 | In every ClientHello with one compression method the list of extensions is found behind the session id and the cipher suites (section 4.1.2 of RFC 8446). |
| Sni.ParsesHello | packets.c:341-362 | parse_tls on every such ClientHello returns the name in its first server_name extension. |
| Sni.NotHello | packets.c:341-345 | And nothing if it is no ClientHello. |
| Sni.CopyName | packets.c:144-162 | The name is written with its wildcards filled in and nothing else is touched. |
| Sni.ChangeTlsSni | packets.c:257-330 | On a ClientHello, whole or cut into records, with a name shorter or longer than the old one: the function joins the records, succeeds, and leaves the renamed ClientHello of `nn` bytes, whatever stale bytes are behind it. |
| Sni.NoFirstByte | packets.c:214-220 | Without the byte 0xfe in the request, the name and the three lengths, no encrypted_client_hello extension is found in between. |
| Sni.RenamedExts | packets.c:257-330 | Its extension list is the old one with server_name replaced, plus at most one trailing padding (section 4.2 of RFC 8446, section 3 of RFC 7685). |
| Sni.RenamedParses | packets.c:341-362 | Record, handshake and list length all end at `nn`, and parse_tls finds the new host (section 3 of RFC 6066). |
| Sni.ChangeThenParse | packets.c:341-362 | change_tls_sni, then parse_tls: an instance of the new name, and the name itself if it has no wildcard. |
| TlsTimer.FeedAppend | extend.c:490-518 | Reading two chunks one after the other is reading them at once. |
| TlsTimer.Eval.TrySetTlsTimer | extend.c:481-527 | The loop, which takes payload in one step, agrees with the reader byte by byte, and the timer is set exactly if it has stopped inside a record. |
| TlsTimer.ArmedMidRecord | extend.c:520-525 | Over a whole stream: an error exactly if the record-by-record reading finds one, and position = size exactly if the stream is a sequence of whole records. |
| TlsTimer.Receive | extend.c:738-759 | The same over any chunks of a response, with the byte limit: `mark` is cleared exactly if the response is in error or longer than the limit, the timer is set exactly in the middle of a record, and off if only the limit has cleared `mark`. |
| TlsTimer.EmptyRecord | extend.c:510-514 | An empty record counts as an error once a byte follows. |
| TlsTimer.RecordTypes | extend.c:496-503 | Exactly the types 20 to 24 are let through. |
| Desync.SendOob | desync.c:398-420 | One byte more than the part goes out, urgent; the request is as before. |
| Desync.UrgentRounds | desync.c:602-620 | The configured parts have one urgent byte for each round of the two out-of-band methods. |
| Desync.DesyncAims | desync.c:441-566 | Where a single part ends, by its flags: k behind the begin, the middle or the end of the host or a random place in it, or else of the request; `s` bytes further each time. |
| Desync.FirstSend | desync.c:584-660 | What the call answers when the send of its first part is whole, short, blocked or failed. |
| Desync.OnlySend | desync.c:665-676 | And when there is only the final send. |
| Desync.AfterSent | desync.c:584-660 | What a part that was sent whole, in part or not at all does to the account of bytes that are out. |
| Desync.Desync | desync.c:520-677 | One call, first or resumed, for any parts, whatever every send does: what is out afterwards is a function of what was out and of the sends; all bytes in front of the returned position are out, once and in order, but for those passed over; exactly one urgent byte goes out for each out-of-band part that is sent whole. For parts whose place depends on the length alone, the bytes passed over are the ones that a short or blocked send of a part costs. |
| Desync.Run | proxy.c:678-729 | Every run of calls, for any parts: the same at every return; at the end the whole request is out if and only if nothing was passed over. For parts whose place depends on the length alone, if and only if no non-empty part was cut short or blocked and the final send was not cut short; with ascending positions and all parts taken whole the parts are the configured ones, with as many urgent bytes as there are out-of-band rounds. |
| Desync.LosesBytes | desync.c:582-643 | A run in which it is not: a part is cut short after k bytes, the next call takes it for sent. |
| Desync.DrawsAnew | desync.c:560-643 | A run in which it is not although every send takes everything: a random part is drawn anew when the call is resumed. |
| Groups.Params.SwopGroups | extend.c:308-339 | Adjacent or not, the head included: the list is linked in both directions again with just the two exchanged, and by position `detect` and `auto_level` stay. |
| Groups.OnTrigger | extend.c:342-401 | Where the walk ends and with which successor; masks grow by exactly the groups passed; the failed group changes places with the successor exactly if it comes first in the list, has the higher `pri`, the successor is to be sorted and the cache does not count the group as used; counters stay with their groups. |
| Groups.FindDp | extend.c:557-581 | The circular scan ends after at most one round, at the first group that is unused and suits (it is the one in use, or has no `detect`, or one of the errors met), and marks exactly those it passed; null exactly if there is none. |
| Groups.Live | extend.c:198-221 | Every run of a connection, from a first choice or from the group, mask and errors that the cache remembers (extend.c:597-606), the list being reordered by others in between: used groups stay used, and there are fewer reconnects than groups. |
| Timers.Inserted | conev.c:249-276 | Insertion keeps the timer list linked in both directions and sorted. |
| Timers.Unlinked | conev.c:279-296 | So does removal. |
| Timers.TimerList.Expire | conev.c:312-315 | The event fired has the least deadline of all. |
| EventPool.ChainShapes | proxy.c:481-482 | What is reached through pairs: a slot alone, two, or the three of a UDP association. |
| EventPool.Pool.DelEvent | conev.c:81-139 | From any state: ends; closes exactly the live slots reached through pairs, each once; links stay a permutation with the live ones in front, every index right; `count` drops by the number closed; their timers go. |
| EventPool.Pool.AddEvent | conev.c:46-78 | Takes a slot that was closed, as a new registration, and leaves all others alone; null exactly if the pool is full. |
| EventPool.Pool.Circle | proxy.c:541-543 | udp_associate's three slots become a ring. |
| EventPool.Pool.Discard | extend.c:218-219 | reconnect's one-sided unpairing makes del_event close that slot alone; all others stay as they are. |
| EventPool.Pool.NextEvent | conev.c:162-184 | What is dispatched is an event of the batch for a slot that is live and still the registration it was fetched for; all events passed over carry the stamp of the iteration, and of a new batch none is passed over. Nothing is returned if and only if all that is left of the batch is stale and epoll_wait reports nothing. |
| EventPool.Pool.NextEventTv | conev.c:299-317 | The event is of the batch or has the least deadline; the timer fires if and only if there is one and it is due, or all of the batch is stale and epoll_wait times out, or fails with the type still POLLTIMEOUT from an earlier call. A timer that is due leaves the batch where it is; otherwise the batch goes on as in next_event. |
| EventPool.Pool.FiresEarly | conev.c:312-315 | A failed epoll_wait with that type: the timer fires although it is not due. |
| EventPool.GoneFresh | conev.c:114-116 | Closing slots stamps them, so that their pending events are skipped. |
| EventPool.Run | conev.c:320-339 | Every run of waits, registrations, closings, pairings, one-sided unpairings, setting and removing of timers: each action is carried out and does nothing else; links, stamps and timers stay in order, every dispatched event goes to a live slot of the registration it was fetched for, and every timer fired had the least deadline. |
| EventPool.NoneLost | conev.c:162-184 | No event of a batch is lost in such a run: it is dispatched, or stale when passed over, before a new batch is fetched, or still pending at the end. |

## Findings

Where a property fails of the code, the model keeps the code and states when it holds.

- `-` sorts below `.`, so a host list with "a-b" and "b" can miss subdomains of "b"
  (Match.DashCounterexample; exactly when: Match.HostExact). After such a list mem_add may also
  keep a host beside one that covers it (Match.KeepsRelated), which hides the latter in turn; a pool
  still covers what it should (Mpool.AddIsUnion).
- check_ip compares prefixes of different families (Match.ForeignFamily).
- cache_get gives mem_delete bytes for bits, so it may remove another entry than the expired one
  (Cache.Get, Cache.DeletedIff, Cache.WrongEntry).
- part_tls answers non-zero without inserting anything behind the end of the record, and tamp
  counts five bytes all the same (TlsRecords.HeadersIff, TlsRecords.Overcounted).
- merge_tls_records keeps scanning stale bytes (MergeRecords.RejoinsIff) and does not end on some
  requests (MergeRecords.EmptyRecordsLoop; exactly when: MergeRecords.EndsIff).
- A part that is cut short or would have blocked counts as sent, and a short final send is not
  noticed (Desync.Run, Desync.LosesBytes).
- A part at a random place is drawn anew when desync is resumed, and the bytes up to its new place
  count as sent (Desync.DrawsAnew).
- next_event_tv fires a timer early when epoll_wait fails and the type of an earlier call was
  POLLTIMEOUT (EventPool.Pool.FiresEarly; exactly when: EventPool.Pool.NextEventTv).
- An empty TLS record, which section 5.1 of RFC 8446 allows for application data, is taken for an
  error (TlsTimer.EmptyRecord).

## Left out

- Memory: allocation failures, freeing elements and buffers, kavl_free, kavl_itr_find. A node taken out is not used again here.
- Fixed arrays of kavl.h: `path`, `dir` and `stack` are sequences with the assertion that they stay below 64 entries.
- memcmp: the model returns the difference of the first differing bytes; only its sign is used. Bytes behind a short key buffer read as 0.
- The texts of lists, dumps and options: parse_hosts and parse_ipset are taken from the entry on, dump_cache without its printing, load_cache not at all.
- Elements: `extra`, `host` and `dp` of `struct elem_i` but for the time stamps.
- Match.CheckHost: the host is a parameter; of its two sources only parse_tls is modelled (Sni.ParseTls), parse_http is not.
- mod_http, randomize_tls, is_http and the other HTTP helpers, SOCKS codecs, map_fix: easy members next to these.
- Offsets.GenOffset: `info` and the values of rand() are parameters; `rand() % 0`, which is undefined in the program, is taken as some value.
- TlsRecords.Tamp: without mod_http, and `info` does not change between rounds.
- Sni.ChangeTlsSni: only for a ClientHello with one compression method and nothing behind it, slack of 0 or at least 4, room in the buffer to move what follows the name, and no encrypted_client_hello extension found in the two buffers in between; removing extensions and key shares and resizing encrypted_client_hello walk stale bytes under an old length field.
- Desync.Run: for parts at positions that depend on the host, on rand() or on OFFSET_START it does not list the events that pass bytes over; a call that has to begin with tamp again because nothing was out yet ends the run (`Untouched`), and so does the first call after a reconnect, where on_tunnel compares with the length before tamp.
- MergeRecords.MergeTlsRecords: buffers beyond 64 KiB on which the 16-bit sum wraps around.
- Desync.SendPart: fakes, TTL and MD5 options; a disordered or faked part counts as in-band bytes because the kernel sends the original again; ERR_WAIT and Windows.
- Groups: masks are sets of group numbers, for at most 31 groups as `1 << id` gives each a bit of its own; the tests on address, protocol and host are a parameter; on_response's matching is an event.
- EventPool.Pool.AddEvent: a failing epoll_ctl, which leaves the slot half filled in but closed; buffers, callbacks and mod_etype; the poll form of next_event; delay_conn.
- EventPool.Pool.constructor: a slot that was never registered counts as closed (fd -1).
- Timers.TimerList.SetTimer: `now + delay != 0`, since a deadline of 0 is the program's mark for no timer.
