# NetsGo: a verified model of its protocols, budgets and tables

NetsGo is a tunnelling server and client. This project models the six parts of it whose correctness does
not follow from reading one function, and proves what they promise over every input, run or schedule.

**Shared credit between peers** (`FairCredit`, `Credit`, `CreditProtocol`, `CreditFifo`, `CreditBurst`,
`CreditProgress`). The ingress client of a P2P tunnel raises a cumulative demand and waits; the owner paces cumulative grants out of a token bucket and
shares each block between the remote demand and a first-in-first-out queue of its own. `Credit` has both
ends as objects whose methods update fields in place, each proved against a function on values.
`CreditProtocol` puts these functions, all pending reservations and a network that loses, duplicates and
reorders messages into one state machine. Its invariant orders all totals, so no unsigned subtraction
wraps, no honest message is refused, and the rate holds end to end. `CreditBurst` is about stretches of a
run. "A burst plus the rate" is true of credit handed out and false of bytes spent, because grants that were
not spent when the stretch began come on top. The model gives a run and the exact conditions: with time
counted from the last tick before the stretch, more can be spent if and only if unspent grants and tokens
together exceed a burst; with time counted from the first tick of the stretch itself, if and only if anything
granted is unspent. `CreditProgress` shows that no state is stuck: every reservation of an open account can
still be brought to its end, and `CreditFifo` that local requests finish in the order of their calls over every
run.

**Server budgets** (`BudgetSlot`, `Bandwidth`, `SharedBudget`, `SlotLocking`). Token buckets that are
refilled by stale or fresh clocks, charged several at a time, waited for, refunded and copied through; the
budget that two directions share with any number of reservers; and the order in which slot locks are taken.

**HTTP wildcard domains** (`Strings`, `Decimal`, `HostAddress`, `HttpDomain`, `HostForms`, `DomainClaims`). A bounded
list of candidates stands for label-wise matching, overlap stands for the existence of a common host, and
the conflict check of the write transaction makes the routed claim unique. Hosts, ports, brackets and IP
literals are read as the Go library reads them, and `HostForms` says which host each form of a request names.

**API keys and client tokens** (`TimeText`, `TokenExchange`, `TokenRules`). A transactional state machine over keys, clients and
tokens. Hashing is injective, generated tokens are new. The comment of `ExchangeToken`
(`internal/server/admin_store.go:2101-2104`) says that an install with a valid token is refreshed without
consuming a use; the code validates the key first, so a key without uses left refreshes nothing. The model
follows the code, gives a run in which the promise is broken, and proves exactly when it is kept. Cleaning
compares instants as printed texts without trailing zeros, which is not their order within one second; the
model says for exactly which pairs. `TokenRules` gives the exact conditions under which tokens, keys and
registrations are accepted, and what each operation leaves behind.

**P2P projection retries** (`ProjectionRetry`, `RetryRules`). A queue, a worker that holds copies of its entries, and the
per-user lifecycle gate that disabling a user locks, as one state machine. Stale epochs are never written.
A projection queued while the worker holds a copy of an older one of the same key and epoch, in its batch or
on its way, is lost, however, unless the copy has been put back already: it is forgotten, or overwritten when
the worker requeues. The model gives these runs and the exact condition. `RetryRules` adds that no entry gets
stuck in flight and that nothing of a disabled user is written.

**Activity log and password hash** (`Activity`, `ActivityPaging`, `ActivityRetention`, `ActivityStore`,
`ActivityText`, `Base64`, `PasswordHash`). Cursor paging over a log that changes between requests,
retention, cutting text between characters, and the printed form of a password hash.

`Options`, `Bytes` and `Durations` hold shared types and constants. Floating-point numbers are modelled as reals and clocks as
arguments or as a clock object that never runs backwards. `dafny verify dfyconfig.toml` checks everything.

## Model

| member | source | states |
|---|---|---|
| `FairCredit.FairAllocation` | internal/client/shared_credit_scheduler.go:9-38 | For all 64-bit inputs, the wrap of `available+1` included: pays out exactly what the block and both capped demands allow, and each side at least its half or its whole demand |
| `Credit.RemoteCreditAccount.ReserveBegin` | internal/client/p2p_credit.go:32-48 | Raises demand and sequence in one critical section, refuses on close or overflow, and stays within 64 bits |
| `Credit.RemoteCreditAccount.ReserveTry` | internal/client/p2p_credit.go:53-62 | Ends exactly when closed or when the unspent credit suffices, and then spends exactly the reserved bytes |
| `Credit.RemoteCreditAccount.Apply` | internal/client/p2p_credit.go:65-77 | Takes a newer, larger grant within the demand, and leaves everything unchanged otherwise |
| `Credit.RemoteCreditAccount.Close` | internal/client/p2p_credit.go:79-86 | Only closes |
| `Credit.SumOutstanding` | internal/client/p2p_credit.go:183-190 | The saturating loop computes the lesser of the true sum and the 64-bit maximum |
| `Credit.OwnerCreditScheduler.ReserveBegin` | internal/client/p2p_credit.go:111-125 | Appends the request at the end of the queue, unless it is empty, unlimited or closed, and then changes nothing |
| `Credit.OwnerCreditScheduler.ApplyDemand` | internal/client/p2p_credit.go:134-146 | Takes a newer demand that is not smaller, and nothing else |
| `Credit.OwnerCreditScheduler.DrainQueue` | internal/client/p2p_credit.go:200-209 | The draining loop equals the specification and finishes exactly the ids at the front of the queue |
| `Credit.OwnerCreditScheduler.DivideBlock` | internal/client/p2p_credit.go:182-197 | Which side takes the odd byte, and the turn of the preference in contested rounds only |
| `Credit.OwnerCreditScheduler.AllocateLocked` | internal/client/p2p_credit.go:180-215 | The whole critical section: new totals, sequence, queue, preference and finished requests |
| `Credit.OwnerCreditScheduler.RunTick` | internal/client/p2p_credit.go:161-172 | One tick: refill, allocate, take the remote part back when the send fails, but keep its tokens spent |
| `Credit.OwnerCreditScheduler.Rollback` | internal/client/p2p_credit.go:217-222 | A failed send takes back exactly the remote grant and nothing else |
| `Credit.DrainSpendsAll` | internal/client/p2p_credit.go:200-209 | Draining leaves no credit over and no finished request in the queue |
| `Credit.DrainIsFifo` | internal/client/p2p_credit.go:200-209 | Exactly a front segment is finished, the next request holds the rest, later ones are untouched |
| `CreditFifo.LocalRequestsAreFifo` | internal/client/p2p_credit.go:111-132 | Over every run of reservations, ticks and closings: the ids of local requests finished so far, followed by those still queued, are those accepted, in the order of their calls |
| `Credit.AllocateIsExact` | internal/client/p2p_credit.go:180-224 | A round pays exactly min(block, both capped demands), both totals move by exactly the grants, and each side gets half the block or its capped demand |
| `Credit.ContestedRoundsAlternate` | internal/client/p2p_credit.go:191-197 | Two successive contested rounds give each side at least one byte |
| `CreditProtocol.ExecKeepsInv` | internal/client/p2p_credit.go:32-224 | Every step of either end, of the network and of the clock keeps the protocol invariant |
| `CreditProtocol.TotalsStayOrdered` | internal/client/p2p_credit.go:32-77 | In every run consumed <= granted <= owner granted <= owner desired <= desired <= 64-bit maximum, the grant sequence never exceeds the ticks, and an open account has asked for exactly what it spent plus what is pending |
| `CreditProtocol.HonestMessagesAreAccepted` | internal/client/p2p_credit.go:134-146 | A newer grant or demand that was really sent is accepted at any time, whatever was lost, repeated or overtaken |
| `CreditProtocol.DeliveryOrderIsIrrelevant` | internal/client/p2p_credit.go:65-77 | States reached with the same set of delivered messages agree on the received totals and sequences |
| `CreditProtocol.ReceiversStandAtHighest` | internal/client/p2p_credit.go:71-75 | After every run each receiver holds the total of the delivered message with the highest sequence |
| `CreditProtocol.NeverFasterThanRate` | internal/client/p2p_credit.go:155-178 | From the start, bytes spent remotely plus bytes paid locally never exceed rate times time |
| `CreditBurst.IssuedWithinBurstPlusRate` | internal/client/p2p_credit.go:155-224 | Over any stretch of a run, credit handed out never exceeds one burst plus the rate times the time between the first and the last tick of that stretch |
| `CreditBurst.IssuedWithinTenthPlusRate` | internal/client/p2p_credit.go:155-172 | The same with the burst spelt out: a tenth of a second of the rate, and one byte at least |
| `CreditBurst.IdleTickPaysBurst` | internal/client/p2p_credit.go:161-215 | The bound is met: a tick a tenth of a second or more after the last pays a full bucket, as far as both sides ask for it, up to 256 KiB each |
| `CreditBurst.SpentWithinUnspentPlusRate` | internal/client/p2p_credit.go:53-62 | Over any stretch, bytes spent exceed what was unspent at its beginning by no more than the bucket and the rate allow, on either way of counting its time |
| `CreditBurst.OverspendIffCreditExceedsBurst` | internal/client/p2p_credit.go:32-224 | Some continuation spends more than a burst plus the rate since the last tick if and only if unspent grants plus tokens exceed a burst |
| `CreditBurst.OverspendIffAnyUnspent` | internal/client/p2p_credit.go:32-224 | Some continuation spends more than a burst plus the rate since its own first tick if and only if anything granted is unspent |
| `CreditBurst.OverspendIffUnspentExceedsBurst` | internal/client/p2p_credit.go:53-77 | Without any tick, more than a burst can be spent if and only if unspent grants alone exceed a burst |
| `CreditBurst.ClosedAccountNeverOverspends` | internal/client/p2p_credit.go:55-60 | From a closed account on, no continuation spends more than a burst plus the rate |
| `CreditBurst.UnspentCanExceedBurst` | internal/client/p2p_credit.go:161-172 | A concrete run from the initial state that piles up more unspent grants than a burst |
| `CreditProtocol.AllWaitingCanFinish` | internal/client/p2p_credit.go:45-62 | Once all that is demanded has been granted, every waiting reservation of an open account finishes, one after the other |
| `CreditProgress.EveryReservationCanFinish` | internal/client/p2p_credit.go:32-224 | From every state with an open account and a rate, whatever was lost, some continuation sends, grants and finishes every reservation in progress |
| `CreditProtocol.ContestedRoundsServeBoth` | internal/client/p2p_credit.go:191-223 | In runs without failed sends, two contested rounds with any uncontested steps between them move both the remote and the local total |
| `BudgetSlot.OperationsKeepSlotOk` | internal/server/bandwidth.go:62-183 | Every operation, at any clock reading, keeps tokens between zero and capacity and capacity equal to the limit |
| `BudgetSlot.TakeIsMaximal` | internal/server/bandwidth.go:109-138 | A take charges exactly what it returns and either grants all or leaves less than one token |
| `BudgetSlot.WaitReachesOneToken` | internal/server/bandwidth.go:148-163 | Sleeping the rounded-up wait, or longer, brings at least one whole token |
| `BudgetSlot.WaitIsLeast` | internal/server/bandwidth.go:148-163 | No shorter sleep brings a whole token |
| `BudgetSlot.RefillMeans` | internal/server/bandwidth.go:165-183 | A limited slot gains its limit per second up to its limit; a clock that has not moved on changes nothing |
| `BudgetSlot.UpdateLimitMeans` | internal/server/bandwidth.go:62-87 | A slot that was unlimited or is empty starts full, a fuller one than the new limit is cut, any other keeps its tokens |
| `BudgetSlot.RefundUndoesTake` | internal/server/bandwidth.go:109-146 | A take and a refund of k of its n bytes at the same instant leave the refilled tokens less n - k |
| `BudgetSlot.RefundGivesBack` | internal/server/bandwidth.go:140-146 | At any instant a refund adds all its bytes or leaves the slot full |
| `BudgetSlot.RateOverWindow` | internal/server/bandwidth.go:109-183 | Any sequence of takes, refunds, previews and waits, at clock readings in any order within a window: net bytes never exceed capacity plus limit times the window |
| `Bandwidth.Bucket.constructor` | internal/server/bandwidth.go:50-60 | A new bucket is full and stamped |
| `Bandwidth.Bucket.SetLimit` | internal/server/bandwidth.go:62-87 | The in-place update equals the specification and restarts the account |
| `Bandwidth.Bucket.RefillLocked` | internal/server/bandwidth.go:165-183 | A stale clock changes nothing; otherwise tokens accrue up to capacity; the bucket stays within its rate |
| `Bandwidth.Bucket.TakeLocked` | internal/server/bandwidth.go:129-138 | Charges the account of a limited bucket by exactly what it allows |
| `Bandwidth.Bucket.RefundLocked` | internal/server/bandwidth.go:140-146 | In place, what the specification says: with RefundUndoesTake and RefundGivesBack, all bytes come back up to capacity, in a limited bucket only |
| `Bandwidth.PreviewAll` | internal/server/bandwidth.go:444-449 | The amount is the largest that every limited bucket permits |
| `Bandwidth.TakeAll` | internal/server/bandwidth.go:451-453 | Every limited bucket loses exactly the amount and keeps at least its tokens less the amount; an unlimited one loses nothing |
| `Bandwidth.WaitAll` | internal/server/bandwidth.go:458-463 | The longest wait is enough for every bucket, and it is the wait of one of them |
| `Bandwidth.TakeAllowance` | internal/server/bandwidth.go:431-471 | Returns after at most one sleep; all distinct limited buckets are charged exactly the result, which is the request or empties a bucket below one token |
| `Bandwidth.RefundAll` | internal/server/bandwidth.go:477-488 | Every limited bucket has at least that many tokens more afterwards, or is full; its account is lowered by exactly the bytes |
| `Bandwidth.ReserveFull` | internal/server/bandwidth.go:490-495 | Terminates having charged every limited bucket exactly the total |
| `Bandwidth.WriteFull` | internal/server/bandwidth.go:497-512 | The output grows by exactly the written prefix; success means all of it |
| `Bandwidth.CopyObserved` | internal/server/bandwidth.go:518-551 | For every reader and writer: the total is what the observer saw, the output is that prefix of what was read, each limited bucket ends charged by exactly that many bytes and keeps at least its tokens less the total, and each of the four endings is tied to what the reader or writer did last |
| `Bandwidth.NetWithinRate` | internal/server/bandwidth.go:109-183 | Between calls a bucket's net bytes since its limit was set are at most capacity plus limit times elapsed |
| `SharedBudget.ShareFacts` | internal/server/bandwidth.go:273-282 | Under contention a turn gets at most half, and below two tokens one byte for the preferred side and none for the other |
| `SharedBudget.TurnIsMaximal` | internal/server/bandwidth.go:265-296 | What a turn admits, without naming its share: uncontested the whole request, a full block, or all but less than one token; contested the same within half the tokens, and below two tokens one byte for the preferred side only |
| `SharedBudget.RefilledMeans` | internal/server/bandwidth.go:306-316 | A refill adds the limit per second up to the capacity; a stale clock changes nothing |
| `SharedBudget.WithLimitMeans` | internal/server/bandwidth.go:232-246 | The capacity is a tenth of the limit between one byte and a block; an empty budget starts full, a fuller one is cut, waiting counts and preference stay |
| `SharedBudget.TurnFacts` | internal/server/bandwidth.go:265-296 | A turn admits within the request, lowers its own waiting counter by exactly that, and keeps tokens in range |
| `SharedBudget.SharedFairBudget.UpdateLimit` | internal/server/bandwidth.go:232-246 | The in-place update equals the specification, two clock readings included |
| `SharedBudget.SharedFairBudget.Enter` | internal/server/bandwidth.go:248-262 | Counts the bytes as waiting unless there is nothing to limit |
| `SharedBudget.SharedFairBudget.TakeTurn` | internal/server/bandwidth.go:265-303 | One turn of the loop in place equals the specification, whose meaning TurnIsMaximal and TurnFacts give |
| `SharedBudget.ExecKeepsInv` | internal/server/bandwidth.go:248-304 | Every step of any reserver, and every limit change, keeps the invariant |
| `SharedBudget.CountersMatchPendingCalls` | internal/server/bandwidth.go:248-304 | In every run tokens stay in range and each waiting counter is the sum of what its pending calls still want |
| `SharedBudget.BytesAreConserved` | internal/server/bandwidth.go:248-304 | In every run and for each direction, the bytes that wait at the end are those that waited at the beginning and those that entered, less those let through |
| `SharedBudget.ScarceGrantsAlternate` | internal/server/bandwidth.go:274-293 | Between contested grants with fewer than two tokens the direction strictly alternates, one byte at a time |
| `SharedBudget.AdmittedWithinRate` | internal/server/bandwidth.go:264-316 | Under a fixed limit, bytes admitted in any run never exceed capacity plus limit times the window |
| `SharedBudget.SomeTurnAdmits` | internal/server/bandwidth.go:264-303 | While a call of a limited budget is pending, a second after the last refill its own turn, or one of the preferred other direction, admits a byte |
| `SharedBudget.EveryCallCanFinish` | internal/server/bandwidth.go:264-303 | From every state of a limited budget with any number of pending calls, turns alone can finish all of them |
| `SharedBudget.EveryFairScheduleFinishes` | internal/server/bandwidth.go:264-303 | Every schedule that gives each pending call a turn in each round, a second apart, finishes all calls within as many rounds as there are bytes to admit |
| `SlotLocking.SortAscends` | internal/server/bandwidth.go:401-411 | Locks are taken in strictly ascending id order, each of the distinct slots once |
| `SlotLocking.SomeoneCanStep` | internal/server/bandwidth.go:412-419 | From an unfinished thread, following who holds what leads to a thread that can step |
| `SlotLocking.NeverDeadlocked` | internal/server/bandwidth.go:396-420 | No reachable state of any number of threads with any sets of slots is deadlocked |
| `SlotLocking.EveryScheduleFinishes` | internal/server/bandwidth.go:396-420 | Schedules are bounded, and one that cannot go on has finished every thread |
| `SlotLocking.UnsortedOrdersCanDeadlock` | internal/server/bandwidth.go:401-414 | Without the sort two threads can deadlock |
| `HostAddress.IPv6Chars` | internal/server/http_domain.go:62-68 | Every text read as an IPv6 literal has two colons at least and only address characters, so no domain name is one |
| `HostAddress.OctetIffPrinted` | internal/server/http_domain.go:62-68 | A field of an IPv4 literal is exactly what a number up to 255 prints as |
| `HostAddress.IPv6Iff` | internal/server/http_domain.go:62-68 | A text is an IPv6 literal if and only if it is pieces of 16 bytes joined by colons, or pieces of fewer with one ellipsis before, between or after them, a piece being one to four hexadecimal digits or, at the end, an IPv4 address (section 2.2 of RFC 4291) |
| `HttpDomain.ValidateHttpDomain` | internal/server/http_domain.go:15-35 | The stripping loop decides exactly the valid patterns |
| `HttpDomain.ValidPatternLabels` | internal/server/http_domain.go:12-35 | A valid pattern is at most three star labels followed by a valid name that is no IP literal, within 253 characters |
| `HttpDomain.ValidPatternIff` | internal/server/http_domain.go:12-35 | A canonical text is a valid pattern if and only if its labels are at most three stars and then a valid name, within 253 characters |
| `HttpDomain.PatternTextIsValid` | internal/server/http_domain.go:12-35 | Every such list of labels, joined, is a valid pattern with that many stars |
| `HttpDomain.ValidNameMeans` | internal/server/http_tunnel.go:104-163 | What a valid name is, label by label and character by character |
| `HttpDomain.RouteHostLabels` | internal/server/http_domain.go:43-81 | An accepted authority yields a canonical host: an IP literal, localhost or a valid name |
| `HttpDomain.CanonicalRouteHostTwice` | internal/server/http_domain.go:43-81 | Looking a canonical host up again, IPv6 literals included, changes nothing |
| `HostForms.HostWithPort` | internal/server/http_domain.go:43-60 | For a routed host h without a colon and any p: h + ":" + p routes to h if p is a number from 1 to 65535, and is refused otherwise |
| `HostForms.HostWithPrintedPort` | internal/server/http_domain.go:43-60 | The same with the port as a printed number |
| `HostForms.AddressWithPort` | internal/server/http_domain.go:43-68 | The same for an IP literal in brackets with a port |
| `HostForms.AddressInBrackets` | internal/server/http_domain.go:61-76 | An IP literal in brackets routes to the literal |
| `HostForms.AddressRoutes` | internal/server/http_domain.go:61-81 | A canonical IP literal routes to itself |
| `HostForms.FinalDot` | internal/server/http_domain.go:43-81 | A final dot changes nothing |
| `HostForms.CaseDoesNotMatter` | internal/server/http_domain.go:43-81 | For every authority, accepted or not, the case of its letters changes nothing |
| `HttpDomain.HttpDomainCandidates` | internal/server/http_domain.go:85-99 | The loop lists the host and then ever more general patterns |
| `HttpDomain.HttpDomainMatches` | internal/server/http_domain.go:101-109 | The scan decides membership among the candidates |
| `HttpDomain.MatchesIsLabelWise` | internal/server/http_domain.go:83-109 | For every authority, a valid pattern matches if and only if the host is routable, no IP literal, and equal label by label with each star one label |
| `HttpDomain.WitnessIsValid` | internal/server/http_tunnel.go:104-163 | The host made from a pattern by turning stars into one-letter labels is a valid name within the label and name limits of section 2.3.4 of RFC 1035 |
| `HttpDomain.HttpDomainsOverlap` | internal/server/http_domain.go:113-125 | The loop decides label-wise compatibility |
| `HttpDomain.OverlapIffCommonHost` | internal/server/http_domain.go:111-125 | Two valid patterns overlap if and only if some valid routable host is matched by both |
| `HttpDomain.ConflictMeans` | internal/server/http_domain.go:127-133 | Two valid patterns conflict if and only if some valid host is matched by both and they are the same pattern or do not have one known owner |
| `DomainClaims.FindConflict` | internal/server/http_domain_store.go:18-43 | Finds a conflicting row if and only if there is one beside the candidate's own |
| `DomainClaims.ClaimStore.Save` | internal/server/http_domain_store.go:16-43 | In place, writes exactly when the claim fits; SavedIffNoClash says when that is |
| `DomainClaims.SavedIffNoClash` | internal/server/http_domain_store.go:16-43 | A well-formed claim is saved if and only if no row but its own is an HTTP claim at the same place that shares a host with it, unless one known owner has both with different patterns; it replaces its own row, and all others stay |
| `DomainClaims.PatternCanBeClaimed` | internal/server/http_domain_store.go:16-43 | Any text of up to three stars and a valid name can be claimed on the server |
| `DomainClaims.InTheWayMeans` | internal/server/http_domain_store.go:18-41 | The scan looks for a clash with a row other than the one excluded, which is the candidate's own unless another is named; a candidate without a location is one on the server |
| `DomainClaims.TablesStayConflictFree` | internal/server/http_domain_store.go:16-43 | Any sequence of saves and deletions leaves a table without conflicts |
| `DomainClaims.MatchingClaimsAgree` | internal/server/http_domain.go:127-133 | Two claims that match one host have one non-empty owner and different numbers of stars |
| `DomainClaims.SameStarsSamePattern` | internal/server/http_domain.go:83-99 | Two patterns with equally many stars that match one host are the same |
| `DomainClaims.RankIsStarCount` | internal/server/http_domain_store.go:88-93 | The place of a matching pattern among the candidates is its number of stars |
| `DomainClaims.LockKeys` | internal/server/http_domain_store.go:59-68 | The lookup asks for every candidate with and without a final dot, in order, and for nothing else |
| `DomainClaims.FindDomainClaim` | internal/server/http_domain_store.go:54-99 | Finds the matching claim with the fewest stars, strictly fewer than any other match, or none exactly when none matches |
| `DomainClaims.FindRuntimeRoute` | internal/server/http_tunnel_proxy.go:245-288 | Over clients and proxies in any order: finds a proxy when one can serve, and none that can has a more specific pattern |
| `DomainClaims.FindRoute` | internal/server/http_tunnel_proxy.go:220-239 | With a store the most specific claim alone decides: its own running proxy or its being offline, never a broader claim; without one, no route exactly when no proxy matches, else a most specific match |
| `DomainClaims.LiveIffOnline` | internal/server/http_tunnel_proxy.go:226-270 | The host goes live if and only if the most specific claim is to run and a proxy with its client, owner, name, domain and, where known, id and revision is online; it goes to such a proxy, whose owner is the owner of every claim that the host matches |
| `TokenExchange.CandidateKeys` | internal/server/admin_store.go:1903-1913 | In table order, exactly the rows with the digest, or exactly those without any when there are none |
| `TokenExchange.FindKeyByRaw` | internal/server/admin_store.go:1884-1896 | The loop finds the first candidate whose hash fits |
| `TokenExchange.AdminStore.ValidateClientKey` | internal/server/admin_store.go:1828-1882 | The checks and their order, for every table |
| `TokenExchange.AdminStore.ExchangeInTx` | internal/server/admin_store.go:2138-2209 | Refreshes the install's live token of this key, or charges the key, revokes the others and adds one; with no matching key the key id is empty and nothing is charged |
| `TokenExchange.AdminStore.ExchangeToken` | internal/server/admin_store.go:2105-2136 | All or nothing: the new tables on success, the old ones on every failure |
| `TokenExchange.AdminStore.RegisterAndExchange` | internal/server/admin_store.go:1968-2035 | All or nothing, with the client found or created for the key's owner |
| `TokenExchange.AdminStore.ValidateClientToken` | internal/server/admin_store.go:2213-2262 | In place, the refusals in their order or the stamped row; TokenRules.AcceptedIffStands and RefusedBecause say when each happens |
| `TokenExchange.CheckedKeyIsCharged` | internal/server/admin_store.go:1968-2006 | The key that was validated is the key that is charged, by one, only when nothing is refreshed, and with a use left |
| `TokenExchange.ExecKeepsInv` | internal/server/admin_store.go:1968-2400 | Every operation, the deletion of keys, clients and users included, keeps use counts within limits and one live, latest token per install |
| `TokenExchange.RunsAreSafe` | internal/server/admin_store.go:1828-2400 | Over all runs: use counts never exceed limits, no install has two unrevoked tokens, and only an install's latest token validates for it |
| `TokenExchange.SupersededTokensStayDead` | internal/server/admin_store.go:2138-2262 | A token that was superseded never validates again, whatever happens |
| `TokenExchange.IssuedTokenValidates` | internal/server/admin_store.go:2138-2262 | A token just issued validates for its install within the inactivity window |
| `TokenRules.AcceptedIffStands` | internal/server/admin_store.go:2213-2262 | In every reachable state a token is accepted if and only if it is the last one issued to the install, its row is there and unrevoked, it was active less than 100 days ago, and the save succeeds |
| `TokenRules.RunsAcceptExactly` | internal/server/admin_store.go:2213-2262 | The same after every run from an empty database |
| `TokenRules.AcceptedTokenStartsAnew` | internal/server/admin_store.go:2244-2258 | Accepting changes nothing but that row, and the token is accepted later if and only if less than 100 days have passed since |
| `TokenRules.RefusedBecause` | internal/server/admin_store.go:2234-2251 | Each refusal has its own condition on the row: revoked, of another install, idle for 100 days, not saved |
| `TokenRules.UnknownIsInvalid` | internal/server/admin_store.go:2214-2261 | A text without a row is invalid |
| `TokenRules.CleansExactly` | internal/server/admin_store.go:2368-2400 | Cleaning takes the revoked tokens and those idle for 100 days and no other row, except that blurred pairs of instants are turned round |
| `TokenRules.EndsExactly` | internal/server/admin_store.go:2303-2366 | Revoking by id or by key, and deleting a client or a user, end exactly the tokens they are aimed at and leave every other row as it is |
| `TokenRules.EndedForGood` | internal/server/admin_store.go:2303-2366 | A token ended so is never accepted again, whatever happens |
| `TokenRules.DeletesExactly` | internal/server/user_store.go:780-792 | Deleting a key, a client or a user takes exactly those rows of the keys and clients |
| `TokenRules.CheckedInOrder` | internal/server/admin_store.go:1856-1877 | What the check says of the first row tried that holds the key: disabled owner, disabled key, expired, used up, or usable, each exactly when it is the first that applies |
| `TokenRules.NoRowNoKey` | internal/server/admin_store.go:1829-1882 | Without such a row the key is invalid, or the server is not set up when it has no keys and is not initialised |
| `TokenRules.OnlyActiveOwners` | internal/server/admin_store.go:1858-1868 | A key is refused for its owner if and only if the owner is not among the active users |
| `TokenRules.AddedKeyIsFound` | internal/server/admin_store.go:1884-1913 | A key that is added under a digest of its own is the one that is found for its text |
| `TokenRules.ExchangeLeaves` | internal/server/admin_store.go:2138-2209 | After an exchange the install has exactly one unrevoked token: the new text, of that key and client, active now, in the refreshed row or in a new one; its other rows were only revoked and every other row is untouched |
| `TokenRules.AddsRowUnlessLive` | internal/server/admin_store.go:2148-2170 | A row is added if and only if the install has no unrevoked token of that key that was active in the last 100 days |
| `TokenRules.OtherInstallsAreUntouched` | internal/server/admin_store.go:2138-2209 | What one install exchanges decides nothing about the tokens of another |
| `TokenRules.IssuedStands` | internal/server/admin_store.go:2138-2262 | The issued token is accepted for its install during the next 100 days and no longer |
| `TokenRules.TouchStartsAnew` | internal/server/admin_store.go:2265-2300 | Touching a live token starts its 100 days again and leaves the others alone |
| `TokenRules.SwitchedOff` | internal/server/admin_store.go:2592-2618 | A key switched off is refused, and switching it on again undoes that |
| `TokenRules.RegistersIff` | internal/server/admin_store.go:1968-2035 | A registration succeeds if and only if the install is named, the key passes every check and has an owner, the install is free or of that owner, and the save succeeds |
| `TokenRules.RegisterLeaves` | internal/server/admin_store.go:983-1025 | It is an exchange for the one client row of the install; a new install gets one with that install, the key's owner and the new id, and the token carries that id |
| `TokenRules.RegisteredStands` | internal/server/admin_store.go:1968-2035 | The token that a registration issues is accepted for the install during the next 100 days and no longer |
| `TokenRules.ExecKeepsOneClientEach` | internal/server/admin_store.go:983-1025 | No operation gives an install a second client row |
| `TimeText.TextOrder` | internal/server/admin_store.go:204-206 | The order of the printed instants is that of the instants, turned round exactly when both lie in one second and one printed fraction continues the other |
| `TokenExchange.CleanedExactly` | internal/server/admin_store.go:2368-2400 | Cleaning keeps a token if and only if it is not revoked and is live, with live and expired exchanged exactly for such pairs of instants |
| `TokenExchange.LiveTokenCanBeCleaned` | internal/server/admin_store.go:2372-2380 | An instance: a token with ten milliseconds left to live is removed |
| `TokenExchange.FreeRefreshIffKeyStands` | internal/server/admin_store.go:2101-2136 | An install with a live token of the key is refreshed without consuming a use if and only if the owner and the key are active, the key is not expired and has a use left, and the save succeeds |
| `TokenExchange.RegisterRefreshIffKeyStands` | internal/server/admin_store.go:1968-2035 | The same for registration, where the install must also be named and be new or of the key's owner |
| `TokenExchange.SecondExchangeIsRefused` | internal/server/admin_store.go:2101-2122 | A run from the empty database in which an install with a live token is refused because its key has no use left |
| `ProjectionRetry.RetryQueue.Enqueue` | internal/server/p2p_projection.go:42-72 | In place, accepts or refuses and leaves the entry that EnqueueMeans describes |
| `ProjectionRetry.RetryQueue.TakeDue` | internal/server/p2p_projection.go:101-111 | Marks and returns exactly the due entries, in any visiting order |
| `ProjectionRetry.RetryQueue.Remove` | internal/server/p2p_projection.go:261-267 | Removes the entry only when owner and epoch are those of the item |
| `ProjectionRetry.RetryQueue.Cancel` | internal/server/p2p_projection.go:294-310 | Removes exactly the entries of the user or of the tunnels, and both counts are right |
| `ProjectionRetry.QueueSizes` | internal/server/p2p_projection.go:42-53 | No operation takes the queue above 256 entries |
| `ProjectionRetry.ExecKeepsInv` | internal/server/p2p_projection.go:101-179 | Every step of worker, enqueuers and lifecycle keeps the invariant |
| `ProjectionRetry.NeverWritesStale` | internal/server/p2p_projection.go:131-179 | In every interleaving, each write happens in the epoch its projection was captured in and for an active owner, and the queue stays within its capacity |
| `ProjectionRetry.SupersededEpochIsNeverWritten` | internal/server/p2p_projection.go:290-310 | Once a user's epoch has moved on, nothing captured before is ever written, not even copies already dequeued |
| `ProjectionRetry.EntriesOnlyAdvanceOverRuns` | internal/server/p2p_projection.go:54-62 | An entry that stays queued never changes owner, never goes back to an older epoch and, within an epoch, never to fewer attempts |
| `RetryRules.EnqueueMeans` | internal/server/p2p_projection.go:42-72 | A projection is taken in if and only if it is complete and either new, with fewer than 256 entries, or of the owner and no older an epoch than the entry it replaces; the entry is not in flight, keeps the larger number of attempts of its epoch and is due after their delay |
| `RetryRules.DelayDoubles` | internal/server/p2p_projection.go:74-83 | A second up to the first attempt, then twice the delay before, up to 30 seconds |
| `RetryRules.TakenAfterItsDelay` | internal/server/p2p_projection.go:101-111 | An entry is taken from the end of its delay on, and once taken not again |
| `RetryRules.CancelsExactly` | internal/server/p2p_projection.go:278-310 | Cancelling takes the entries of the user and those with one of the tunnels, and nothing else |
| `RetryRules.CancelledStayOut` | internal/server/p2p_projection.go:124-129 | What cancelling a user removed stays out of the queue: the worker never puts a copy of an earlier epoch back |
| `RetryRules.DisablingGoesThrough` | internal/server/p2p_projection.go:286-310 | Whenever the worker does not hold the user's gate, disabling goes through: the epoch moves on by one, the user is inactive, exactly the retries are gone, the gate is free again and nothing else changes |
| `RetryRules.DisabledIsNotWritten` | internal/server/p2p_projection.go:131-179 | From the moment a user is disabled until enabled again, no projection of theirs is written, whatever the worker holds |
| `RetryRules.NothingIsStuck` | internal/server/p2p_projection.go:101-129 | In every run, when the worker rests with an empty batch no entry is in flight, so the entries taken next are exactly those whose time has come |
| `RetryRules.FailureCountsOnce` | internal/server/p2p_projection.go:114-122 | A retry that the store refuses goes through the whole worker and is queued again with one more attempt, due after the delay of that, and nothing else changes |
| `ProjectionRetry.NewerKeptIffLaterEpoch` | internal/server/p2p_projection.go:101-129 | A projection queued while the worker holds a copy of an older one of the same key and owner, in its batch or in any phase of its way, is still queued when the worker is done if and only if the copy had been put back already, or it is of a later epoch, or of an earlier one and the worker did not requeue; within one epoch it is gone or overwritten; and it was not written |
| `ProjectionRetry.SecondIsForgotten` | internal/server/p2p_projection.go:101-128 | Two runs from the start in which the worker succeeds with the first projection and forgets the second of the same epoch: queued during the batch, and on the way |
| `ProjectionRetry.SecondIsOverwritten` | internal/server/p2p_projection.go:101-122 | The same two starts, in which the worker, after a storage error, puts the first projection in the place of the second |
| `Activity.AscendingUnique` | internal/server/migrations/011_activity_events.sql:15-16 | Rows in id order are determined by which rows they are |
| `ActivityStore.Store.Query` | internal/server/activity_store.go:1029-1139 | Refuses with the first complaint, malformed user ids included, or returns a page of at most the limit with wanted events only, and with all of them unless there is more; the page promises hold of it |
| `ActivityPaging.AnsweredIff` | internal/server/activity_store.go:1029-1075 | What a query must be to be answered, in limits, cursors, range, scope and names |
| `ActivityPaging.SpaceAroundIff` | internal/server/activity_store.go:1073-1076 | The check for space around a user id finds exactly the texts whose first or last character is blank, by code point |
| `ActivityPaging.CutPageIsPage` | internal/server/activity_store.go:1119-1138 | A page lists newest first the matching rows nearest to the cursor, up to the limit; HasMore says exactly whether a row is missing; NextCursor is the outermost id |
| `ActivityPaging.NextFacts` | internal/server/activity_store.go:1078-1085 | The cursor of a page with more leads to a valid query for exactly the matching rows beyond that page |
| `ActivityPaging.WalkVisits` | internal/server/activity_store.go:1029-1139 | Whatever happens to the log between requests: ids move strictly in one direction, so nothing is seen twice, all seen matched, and a finished reader has seen every matching row that was there all along |
| `ActivityPaging.BeforeWalkIsExact` | internal/server/activity_store.go:1078-1138 | Following the cursor without an after cursor visits exactly the rows that matched at the first request, newest first, whatever is appended |
| `ActivityPaging.AfterWalkIsExact` | internal/server/activity_store.go:1078-1138 | Following an after cursor visits exactly the rows that match at the last request, oldest first |
| `ActivityPaging.WalkEnds` | internal/server/activity_store.go:1123-1137 | Following the cursor ends, with a bound on the number of requests |
| `ActivityRetention.NewestIffRank` | internal/server/activity_store.go:1431-1437 | The rows that the ordered, limited subquery keeps are those with fewer than the limit of newer rows of their severity |
| `ActivityRetention.PrunedExactly` | internal/server/activity_store.go:1410-1453 | After the four deletions a row is gone if and only if it is older than the days of its own severity's rule and that rule's minimum count is reached by newer rows of the severity in the original table |
| `ActivityRetention.PolicyBounds` | internal/server/activity_store.go:361-371 | A policy is refused if and only if one of its rules is outside 1 to 3650 days or 0 to 100000 rows |
| `ActivityRetention.MinimumSurvives` | internal/server/activity_store.go:1431-1437 | Of each severity at least the minimum count, or all there were, are left |
| `ActivityRetention.PruneAbsorbs` | internal/server/activity_store.go:1410-1453 | Pruning early and again later equals pruning later only |
| `ActivityStore.Store.Prune` | internal/server/activity_store.go:1410-1453 | The transaction changes nothing on a bad policy or failed commit; otherwise the table is pruned and the count is the number of rows gone |
| `ActivityText.SanitizedUnchanged` | internal/server/activity_store.go:966-967 | Sanitising changes exactly the text that is not well-formed by section 4 of RFC 3629 |
| `ActivityText.RunBecomesOneCharacter` | internal/server/activity_store.go:966 | Well-formed text before and after a maximal run of stray bytes is kept, and the run becomes the one character U+FFFD |
| `ActivityText.CharacterIsScalar` | internal/server/activity_store.go:966 | Every character read is the encoding of a Unicode scalar value by the table in section 3 of RFC 3629 |
| `ActivityText.ScalarIsCharacter` | internal/server/activity_store.go:966 | Every such encoding is read as one character, whatever follows |
| `ActivityText.CutIffStart` | internal/server/activity_store.go:971-974 | A prefix of well-formed text is well-formed if and only if the next byte starts a character |
| `ActivityText.TruncateActivityString` | internal/server/activity_store.go:965-976 | The result is well-formed, a prefix of the sanitised text, within the limit, the longest such, at most three bytes short of it when cut; the flag says exactly whether the text changed |
| `Base64.DecodeEncode` | internal/credential/password.go:44-50 | Unpadded base64 (sections 3.2 and 4 of RFC 4648) reads back for all bytes |
| `Base64.EncodeDecode` | internal/credential/password.go:92-99 | Encoding inverts decoding, but for the bits beyond the last whole byte, which are ignored |
| `Base64.QuantumAsNumber` | internal/credential/password.go:44-50 | Three bytes are written as the 24-bit number that they are; TailAsNumber: one or two get the fewest zero bits that fill a digit |
| `Base64.Alphabet` | internal/credential/password.go:44-50 | The digits are those of table 1 of RFC 4648 |
| `PasswordHash.ItemsMeaning` | internal/credential/password.go:67-91 | The parameter list is read if and only if every item is well-formed, and then the last item of each name counts |
| `PasswordHash.ParsePasswordHash` | internal/credential/password.go:62-103 | The parser's loop and checks equal the specification |
| `PasswordHash.ParsePrint` | internal/credential/password.go:44-103 | Parsing inverts printing for all parameters the fields can hold when none is zero and salt and key are not empty; otherwise the text is refused |
| `PasswordHash.FormMeans` | internal/credential/password.go:62-103 | A text of the printed shape is read as memory, time, threads, salt and key in this order, whatever its numerals, and refused exactly when a number is zero or a base64 text is empty or of impossible length |
| `PasswordHash.PrintForm` | internal/credential/password.go:44-50 | The printed form, numbers without leading zeros |
| `PasswordHash.ParsedIsStable` | internal/credential/password.go:62-103 | Whatever text is accepted, printing the result and parsing again gives the same result |
| `PasswordHash.VerifyIffSameKey` | internal/credential/password.go:31-60 | A stored hash accepts an attempt if and only if it derives the same key, and so accepts its own password |

## Left out

- OverspendIffCreditExceedsBurst: for an open account, a positive rate and room for a little more than a burst in the 64-bit demand, with ticks at any times. A closed account never overspends (ClosedAccountNeverOverspends) and without a rate no credit is asked for. Without that room fresh reservations are refused, so that what can be spent depends on the sizes of those that wait already.
- OverspendIffAnyUnspent: the same.
- AllWaitingCanFinish: says that the waiting calls can finish; that the condition variable wakes them is left to the Go runtime.
- EveryReservationCanFinish: says that some continuation does it; that messages arrive and the owner keeps ticking is up to the network and the scheduler.
- RateOverWindow: for one fixed limit; a change of limit refills a bucket that is exactly empty and starts a new account.
- AdmittedWithinRate: for one fixed limit, for the same reason.
- TakeAllowance: one caller at a time with a clock that does not run backwards; the single-bucket bounds hold for interleaved callers and stale clocks.
- ReserveFull: the same lone caller.
- CopyObserved: the same lone caller; readers and writers answer from finite scripts and keep the contracts of io.Reader and io.Writer.
- SharedFairBudget: the sleep between turns is left out, since a turn may happen at any clock reading.
- LowerChar: lower-cases ASCII only, so the two non-ASCII characters that lower-case to ASCII letters are refused instead of accepted; lengths count characters.
- FindDomainClaim: for tables that the write transaction produced; reading a damaged row is not modelled.
- FindRuntimeRoute: activation snapshots and source address lists of a route are not modelled.
- ClaimStore: of the write transaction only the HTTP domain check and the row are modelled.
- RunsAreSafe: bcrypt and SHA-256 are injective, generated tokens and ids are new, and storage errors other than a failing save are left out.
- NeverWritesStale: whether the targets of a projection are still current is an arbitrary outcome of each attempt, and what a full queue triggers instead of queueing is left out.
- NewerKeptIffLaterEpoch: for steps in which nobody else queues that key or cancels retries before the worker is done with its copy.
- Query: JSON payloads and storage errors are left out.
- TruncateActivityString: a negative limit, which no caller passes and which the original panics on, is excluded.
- HashPassword: the key derivation is a parameter; the random salt is an argument that must not be empty.
- The P2P coordinator, the user lifecycle service and the reconcile registry are present only as steps of the models above.
- WebSocket, yamux, WebRTC, TLS, SQLite and systemd are foreign code; only the state they carry is modelled.
- HTTP handlers, streaming, console snapshots, installers, the desktop and web clients would add only plumbing.
