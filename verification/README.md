# Client-side protocol engines of the OPC UA stack

A Dafny model of the asynchronous engines on the client side of the stack, and proofs
about all their runs. Each engine is modelled twice: as an object with the fields the
source has, whose methods work in place, and as functions or relations on plain values
that specify those methods. The lemmas about whole runs are proved on the values; the
environment (server, secure channel, timer, file) is an arbitrary event source under a
stated contract.

| file | engine |
|---|---|
| `OpcUaTypes.dfy` | shared values |
| `BrowsePaging.dfy`, `ViewServiceBrowse.dfy` | the recursive browser (Browse and BrowseNext, sections 5.8.2 and 5.8.3 of OPC 10000-4) |
| `BrowseResponses.dfy`, `BrowseRuns.dfy`, `BrowseTold.dfy`, `BrowseExploration.dfy`, `BrowseFailures.dfy` | what each response tells, and runs against any server, without and with failed calls |
| `BrowseTermination.dfy`, `BrowsedPages.dfy` | its runs in a finite address space, and against a server with pages |
| `NodeSetServer.dfy` | extraction of the server's node set from the browser's callbacks |
| `SessionService.dfy`, `SessionRuns.dfy`, `SessionAnswers.dfy`, `SessionWaiters.dfy` | secure channel, session handshake, pending requests and synchronous callers (sections 5.6.2 to 5.6.5) |
| `SubscriptionService.dfy`, `SubscriptionRuns.dfy` | publish window and open/close notifications (section 5.13.5) |
| `ClientConnection.dfy`, `ConnectionRuns.dfy`, `ConnectionAnswers.dfy` | connection, subscriptions, monitored items, namespace translation |
| `HistoryRead.dfy`, `HistoryPages.dfy` | history paging within a request budget (section 5.10.3) |
| `Csv.dfy`, `HistoryCsv.dfy` | CSV export and batched import of history values |
| `CommandParser.dfy`, `CommandGrammar.dfy`, `CommandText.dfy` | the command line |
| `PathList.dfy` | the registry tool's path list |

Check with `dafny verify dfyconfig.toml`.

## Contracts of the environment

- Secure channel: a connect gives at most one channel-up; messages arrive only between
  channel-up and channel-down; channel-down comes once; no channel-up follows a disconnect.
- Pending table: an id in use refuses a second entry; an entry is removed or times out once.
- Server of the browser: none for what is reported and reached over the delivered references.
  Termination needs a finite set of nodes and of pages per node. Only the theorems that compare
  the delivered references with the server's own pages fix what the pages contain.
- A response is what its handler reads: for the browser and the creation of subscriptions the
  response header, which says success for a transaction that the session itself rejects or lets
  time out (`ServiceTransaction.cpp:138-145`, `ResponseHeader.cpp:33`). Such a Browse response
  has no results and, unless the request was empty, fails by its size.
- Requests of a lost session are failed by the session before the next session starts.
- Set iteration order, batch choice and continuation points are arbitrary.
- Text conversions (node ids, variants, numbers, timestamps) are function parameters; the CSV
  theorem needs them to invert each other.

## Where the code does not do what its documentation or interface suggests

Each of these is kept in the model and has a lemma.

- A node with more than two reference pages loses all but the last two, because a further
  continuation point stores only the newest page (`DeliveredIsCompleteIff`).
- The completion callback of the browser comes once per failed call and once more at the end,
  so a failure is reported at least twice (`DoneCallbacksCountFailures`). A failed call drops
  the nodes of its batch that are not in the to-read set, such as a start node with a page held
  (`StepGivesUpIff`, `FailedCallLosesAStartNode`); the others stay to be read, so a server that
  keeps failing is asked for ever (`FewFailuresEndIff`).
- With a batch limit of 0 the recursive browser sends empty requests for ever as soon as a
  reference leaves the start nodes (`BrowseTerminatesIff`).
- An error on a later page of a node delivers the page held so far with a bad status. The browser
  follows its references, but the node set extraction drops them, and then drops the results of
  targets that no good result has announced (`BadLaterPageIsTold`, `NodeSetCopiesIff`, `EveryResultFindsItsNodeIff`).
- The client subscription looks at the response header, so a CreateSubscription that is rejected
  or times out opens the subscription with id 0. After a lost session it is then open without a
  connection, and a session lost before the namespaces are read leaves it open
  (`OpenSubscriptionHasConnectionIff`, `TimedOutCreateOpensASubscription`).
- An attribute read answered with BadNodeIdExists by the server is taken for an existing node
  and leaves a dangling reference (`AddReferenceKeepsNoDanglingIff`).
- A disconnect between channel-up and activation replaces an unsignalled connect waiter
  (`NoWaiterIsLostIff`). The waiter slot is never cleared: a connect call that is over is
  signalled again when the session is lost, and the caller of a disconnect is signalled early by
  an activation that is answered meanwhile, and again at its end (`EveryCallerIsToldOnceIff`,
  `ConnectWaiterIsSignalledTwice`, `DisconnectWaiterIsSignalledTwice`).
- When the 32-bit request id wraps around onto a used one, the transaction is written but not
  stored (`SubmissionIsKeptIff`, `WrapAroundDropsATransaction`).
- A failed delete of the last subscription re-inserts it without filling the publish window;
  if the window has drained meanwhile, publishing does not start again (`StepKeepsFullIff`,
  `StarvedStaysStarved`).
- The CSV writer escapes nothing, and a line over the buffer length reads as the end of the
  file (`RowRoundTripsIff`, `FirstLine`).
- A history response with more results than nodes is output without a node, and dereferences a
  missing node if such a result has values and a next page (`OutputWithoutNodeIff`,
  `ScanEndsIff`, `LongResponseCrashes`). Each page of a node is output as often as the node is
  listed (`RepeatedNodeRepeatsPages`, `HistoryOutputExactlyIff`).
- `stringAdd` and `stringRemove` look for text, not for entries (`AddThenRemoveIff`).
- Two oddities without influence on the properties: a Cancel request is sent under the type id
  of CloseSession (`SessionService.cpp:456`), and the CSV file is not closed after an import
  (`ClientServiceWriteH.cpp:253` is not reached).

## Model

| member | source | states |
|---|---|---|
| `BrowsePaging.DeliveredIsLastTwo` | src/OpcUaStackClient/ServiceSet/ViewServiceBrowse.cpp:126-280 | For a node with non-empty pages the caller receives the only page, or the last two pages in order. |
| `BrowsePaging.DeliveredStopsAtEmpty` | src/OpcUaStackClient/ServiceSet/ViewServiceBrowse.cpp:241-248 | An empty page ends the paging: the caller receives the page before it and nothing after it. |
| `BrowsePaging.DeliveredIsCompleteIff` | src/OpcUaStackClient/ServiceSet/ViewServiceBrowse.cpp:256-269 | The intended result, the concatenation of all non-empty pages, is delivered if and only if there are at most two pages. |
| `BrowsePaging.DeliveredIsCompleteWithEmptyPageIff` | src/OpcUaStackClient/ServiceSet/ViewServiceBrowse.cpp:241-265 | With a first empty page number k, the delivery is complete if and only if k is at most 1 and the later pages are empty. |
| `BrowsePaging.ThreePagesLoseTheFirst` | src/OpcUaStackClient/ServiceSet/ViewServiceBrowse.cpp:256-262 | Concrete failing input: of three one-reference pages the first is lost. |
| `ViewServiceBrowse.BrowseService.BrowseResponse` | src/OpcUaStackClient/ServiceSet/ViewServiceBrowse.cpp:102-180 | The handler takes the step of the browse relation for its response and leaves the vectors matching the next request. |
| `ViewServiceBrowse.BrowseService.BrowseNextResponse` | src/OpcUaStackClient/ServiceSet/ViewServiceBrowse.cpp:199-283 | The same for later pages, with every index of the three vectors in bounds. |
| `ViewServiceBrowse.BrowseService.Continue` | src/OpcUaStackClient/ServiceSet/ViewServiceBrowse.cpp:169-179 | The held nodes become the next BrowseNext request, or the response is finished. |
| `ViewServiceBrowse.BrowseService.Done` | src/OpcUaStackClient/ServiceSet/ViewServiceBrowse.cpp:285-311 | Errors are reported; then the next batch is a duplicate-free choice from the to-read set of the size the limit allows, or the final status is reported (a second time after an error). |
| `ViewServiceBrowse.BrowseService.NodeDone` | src/OpcUaStackClient/ServiceSet/ViewServiceBrowse.cpp:313-342 | The node moves from the to-read to the processed set and exactly its unprocessed targets become to be read; the listener is told once. |
| `ViewServiceBrowse.StepKeepsValid` | src/OpcUaStackClient/ServiceSet/ViewServiceBrowse.cpp:168-177 | Whatever the server answers, node, reference and continuation point vectors have equal length at every BrowseNext. |
| `BrowseResponses.ResponseTells` | src/OpcUaStackClient/ServiceSet/ViewServiceBrowse.cpp:126-280 | A call that does not fail tells one result for each position that has no next page, in order: a bad one with its status and the page held, a good one with the page held and its own references; then success if the browse is over. |
| `BrowseResponses.ResponseContinuesIff` | src/OpcUaStackClient/ServiceSet/ViewServiceBrowse.cpp:149-283 | BrowseNext follows if and only if some result has references and a continuation point, and asks for exactly the next pages of those nodes, holding their newest pages. |
| `BrowseResponses.FailureTells` | src/OpcUaStackClient/ServiceSet/ViewServiceBrowse.cpp:199-311 | A failed call tells its status once, and once more if nothing is left to be read. |
| `BrowseResponses.BadResultCarriesTheHeldPage` | src/OpcUaStackClient/ServiceSet/ViewServiceBrowse.cpp:230-239 | A bad result is told with its status and exactly the page held before: nothing for a first page, the newest page for a later one. |
| `BrowseResponses.PlainBrowseReportsTheStartNodes` | src/OpcUaStackClient/ServiceSet/ViewServiceBrowse.cpp:285-342 | A browse without recursion and without failed calls has, when it ends, reported each start node as often as it was given, and then success. |
| `BrowseExploration.StepKeepsInv` | src/OpcUaStackClient/ServiceSet/ViewServiceBrowse.cpp:102-342 | Every response of any server keeps the invariant: results are new nodes heard of before, and every node heard of is processed, open, to be read or was dropped by a failed call. |
| `BrowseExploration.RunKeepsInv` | src/OpcUaStackClient/ServiceSet/ViewServiceBrowse.cpp:102-342 | The invariant holds in every run, failed calls and failed nodes included. |
| `BrowseTold.InOrderAt` | src/OpcUaStackClient/ServiceSet/ViewServiceBrowse.cpp:313-342 | Under that invariant no node is reported twice, and what was delivered for a node is what its one result carried. |
| `BrowseExploration.EveryReportIsNewAndReachable` | src/OpcUaStackClient/ServiceSet/ViewServiceBrowse.cpp:102-342 | For every server and run, every reported node is new and reachable over the references delivered so far. |
| `BrowseFailures.DroppedIsReportedIff` | src/OpcUaStackClient/ServiceSet/ViewServiceBrowse.cpp:285-342 | In a browse that has ended a node that a failed call dropped has been reported if and only if a reference to it was delivered after the drop. |
| `BrowseFailures.ReportsExactlyTheReachableIff` | src/OpcUaStackClient/ServiceSet/ViewServiceBrowse.cpp:102-342 | A browse that has ended, with any failures, has reported exactly the nodes reachable over the delivered references if and only if a reference to every dropped node was delivered after its drop. |
| `BrowseExploration.BrowseVisitsExactlyTheReachableNodes` | src/OpcUaStackClient/ServiceSet/ViewServiceBrowse.cpp:102-342 | If no call fails, whatever status, references and continuation points the single results carry, a finished browse from distinct start nodes has reported exactly the reachable nodes, each once, and then success, once and last. |
| `BrowseFailures.StepGivesUpIff` | src/OpcUaStackClient/ServiceSet/ViewServiceBrowse.cpp:285-311 | A response gives up an intended node if and only if the call fails and the node is in its batch but not in the to-read set. |
| `BrowseFailures.FailedCallLosesAStartNode` | src/OpcUaStackClient/ServiceSet/ViewServiceBrowse.cpp:207-223 | Concrete run: the BrowseNext call for a start node fails and the node is never reported. |
| `BrowseFailures.BadLaterPageIsTold` | src/OpcUaStackClient/ServiceSet/ViewServiceBrowse.cpp:230-239 | Concrete run: the second page of a node fails, its first page is told with the bad status, and its target is browsed. |
| `BrowseRuns.BatchesRespectTheLimit` | src/OpcUaStackClient/ServiceSet/ViewServiceBrowse.cpp:291-305 | Every batch after the first has as many nodes as the limit allows of those to be read, all different and all to be read. |
| `BrowseRuns.DoneCallbacksCountFailures` | src/OpcUaStackClient/ServiceSet/ViewServiceBrowse.cpp:285-311 | For every server and every run the completion callback comes once per failed call and once more at the end. |
| `BrowseTermination.StepKeepsExploring` | src/OpcUaStackClient/ServiceSet/ViewServiceBrowse.cpp:102-342 | In a finite address space every response, failed calls and failed nodes included, keeps all nodes heard of and all held pages inside it. |
| `BrowseTermination.EveryAnswerMakesProgress` | src/OpcUaStackClient/ServiceSet/ViewServiceBrowse.cpp:182-311 | The pair (nodes not processed, pages left in the batch) falls lexicographically with every call that succeeds, errors of single nodes included. |
| `BrowseTermination.FinishesFrom` | src/OpcUaStackClient/ServiceSet/ViewServiceBrowse.cpp:182-311 | From every explored state of a finite address space after which no call fails the browse reaches its end. |
| `BrowseTermination.ZeroLimitStaysInFirstBatch` | src/OpcUaStackClient/ServiceSet/ViewServiceBrowse.cpp:291-305 | With limit 0 processed and open nodes are the start nodes for ever. |
| `BrowseTermination.BrowseTerminatesIff` | src/OpcUaStackClient/ServiceSet/ViewServiceBrowse.cpp:285-305 | Without failed calls the browse of a finite address space ends if and only if the batch limit is positive or no reference is delivered that leaves the start nodes. |
| `BrowseTermination.FewFailuresEndIff` | src/OpcUaStackClient/ServiceSet/ViewServiceBrowse.cpp:285-311 | With a positive batch limit the browse ends if and only if only finitely many calls fail. |
| `BrowseTermination.FailingServerIsAskedForEver` | src/OpcUaStackClient/ServiceSet/ViewServiceBrowse.cpp:285-305 | A server that fails every call while nodes are to be read is asked for ever, and neither set changes. |
| `BrowsedPages.EveryResultIsRight` | src/OpcUaStackClient/ServiceSet/ViewServiceBrowse.cpp:126-280 | Against a server with pages, in every run, a good result carries exactly what the pages of its node deliver and a bad one nothing or one page. |
| `BrowsedPages.BadResultCarriesIff` | src/OpcUaStackClient/ServiceSet/ViewServiceBrowse.cpp:230-239 | Against a server with pages a bad result is told with nothing if and only if the first page failed, and otherwise with exactly the page before the one that failed. |
| `BrowsedPages.BadResultsOfARunCarryIff` | src/OpcUaStackClient/ServiceSet/ViewServiceBrowse.cpp:126-280 | The same for every bad result of every run. |
| `BrowsedPages.PagesAreExplored` | src/OpcUaStackClient/ServiceSet/ViewServiceBrowse.cpp:102-342 | If no call and no node fails, the nodes reported are exactly those reachable in the server over the references its pages deliver. |
| `BrowsedPages.PagedBrowseTerminatesIff` | src/OpcUaStackClient/ServiceSet/ViewServiceBrowse.cpp:285-305 | If no node fails, the browse ends if and only if the batch limit is positive or the start nodes refer only to each other. |
| `NodeSetServer.NodeSetService.ViewServiceBrowseResult` | src/OpcUaClient/ClientService/ClientServiceNodeSetServer.cpp:211-268 | The loop over the references equals the fold of single additions; failed results and unknown nodes change nothing. |
| `NodeSetServer.NodeSetService.ReadNodeAttributes` | src/OpcUaClient/ClientService/ClientServiceNodeSetServer.cpp:270-367 | Status and new model of an attribute read: existing, invalid class, failed or inserted under the global index. |
| `NodeSetServer.AddReferenceExactly` | src/OpcUaClient/ClientService/ClientServiceNodeSetServer.cpp:235-367 | For every outcome of the attribute read: a node is added, under its global id, only by a read that succeeds; the reference is stored if and only if the read succeeds or the node is taken for existing; nothing else changes. |
| `NodeSetServer.AddReferenceKeepsNoDanglingIff` | src/OpcUaClient/ClientService/ClientServiceNodeSetServer.cpp:235-267 | Adding a reference leaves no dangling one if and only if it does not take a node for existing whose global id is missing. |
| `NodeSetServer.ResultsKeepNoDangling` | src/OpcUaClient/ClientService/ClientServiceNodeSetServer.cpp:211-268 | With the identity namespace map a whole result leaves no dangling reference. |
| `NodeSetServer.CallbacksKeepNoDangling` | src/OpcUaClient/ClientService/ClientServiceNodeSetServer.cpp:211-367 | The same for every sequence of callbacks, failed and unexpected ones included. |
| `NodeSetServer.ReadAnsweringExistsDangles` | src/OpcUaClient/ClientService/ClientServiceNodeSetServer.cpp:245-266 | Concrete failing input: a read answered with BadNodeIdExists leaves a reference without its node. |
| `NodeSetServer.StoredKeepsEachEdge` | src/OpcUaClient/ClientService/ClientServiceNodeSetServer.cpp:251-266 | The stored references are exactly the (type, target) pairs of the list. |
| `NodeSetServer.StoredKeepsFirstDirection` | src/OpcUaClient/ClientService/ClientServiceNodeSetServer.cpp:251-266 | A pair listed more than once keeps the direction it was first listed with. |
| `NodeSetServer.CallbackCopies` | src/OpcUaClient/ClientService/ClientServiceNodeSetServer.cpp:218-267 | A reported node is already in the model when its result arrives, and the result extends the copy by exactly its references and targets; a bad result may not carry any. |
| `NodeSetServer.BadResultBreaksTheCopy` | src/OpcUaClient/ClientService/ClientServiceNodeSetServer.cpp:218-224 | A bad result that carries references is followed by the browser but not stored, so the model is no copy. |
| `NodeSetServer.TargetsOfBadResultsAreUnknown` | src/OpcUaClient/ClientService/ClientServiceNodeSetServer.cpp:226-233 | Concrete failing input: the targets of such a result are not in the model when their own results arrive. |
| `NodeSetServer.BadLaterPageIsNotCopied` | src/OpcUaClient/ClientService/ClientServiceNodeSetServer.cpp:218-224 | The browser does make such callbacks: a run from the root in which a second page fails leaves a model that is no copy. |
| `NodeSetServer.EveryResultFindsItsNodeIff` | src/OpcUaClient/ClientService/ClientServiceNodeSetServer.cpp:226-233 | For every callback sequence each good result (the not-found branch is never taken), or each result at all, finds its node in the model if and only if the node is the root or a target of an earlier good result. |
| `NodeSetServer.EmptyBadResultsAnnounceAll` | src/OpcUaClient/ClientService/ClientServiceNodeSetServer.cpp:218-233 | In the order of the browser this holds if bad results carry no references. |
| `NodeSetServer.NodeSetCopiesIff` | src/OpcUaClient/ClientService/ClientServiceNodeSetServer.cpp:211-367 | For every callback sequence of the browser the model is an exact copy of the told graph if and only if no result with a bad status carries references. |
| `NodeSetServer.NodeSetIsTheReachableGraphIff` | src/OpcUaClient/ClientService/ClientServiceNodeSetServer.cpp:211-367 | After a complete browse from node 84 nothing dangles, and the model is exactly the reachable graph if and only if no result with a bad status carries references. |
| `SessionService.SessionObject.OnReconnectTimeout` | src/OpcUaStackClient/ServiceSet/SessionService.cpp:145-151 | A fired timer is a connect without a waiter from the disconnected state. |
| `SessionService.SessionObject.AsyncConnectInternal` | src/OpcUaStackClient/ServiceSet/SessionService.cpp:160-228 | Whole new state of a connect in every state, for good and bad endpoint urls. |
| `SessionService.SessionObject.AsyncDisconnectInternal` | src/OpcUaStackClient/ServiceSet/SessionService.cpp:248-294 | Whole new state of a disconnect in every state, including the overwritten slot. |
| `SessionService.SessionObject.AsyncCancelInternal` | src/OpcUaStackClient/ServiceSet/SessionService.cpp:324-331 | A cancel takes a request id and writes one message, only while connected; the session configuration it reads must exist. |
| `SessionService.SessionObject.OnConnect` | src/OpcUaStackClient/ServiceSet/SessionService.cpp:479-499 | Connected; told at once without a session, otherwise a Create request is written. |
| `SessionService.SessionObject.OnDisconnect` | src/OpcUaStackClient/ServiceSet/SessionService.cpp:501-532 | Session marked closed, timer started where configured, application and waiter told. |
| `SessionService.SessionObject.OnReceive` | src/OpcUaStackClient/ServiceSet/SessionService.cpp:567-619 | A transaction is rejected with the right status, or stored and written under a new id. |
| `SessionService.SessionObject.PendingQueueTimeout` | src/OpcUaStackClient/ServiceSet/SessionService.cpp:621-639 | A timed-out transaction leaves the table and is answered. |
| `SessionService.SessionObject.ReceiveMessage` | src/OpcUaStackClient/ServiceSet/SessionService.cpp:641-672 | A response removes and answers the transaction stored under its id, or is dropped. |
| `SessionRuns.StepKeepsStateInv` | src/OpcUaStackClient/ServiceSet/SessionService.cpp:145-532 | Every event allowed by the channel contract keeps the state invariant. |
| `SessionRuns.RunKeepsStateInv` | src/OpcUaStackClient/ServiceSet/SessionService.cpp:145-532 | In every run the timer is armed exactly in the waiting state, which is never entered without a session, and a connected session has an open channel. |
| `SessionRuns.DestructionLeavesNoTimer` | src/OpcUaStackClient/ServiceSet/SessionService.cpp:95-103 | At every point of every run the destructor leaves no armed timer. |
| `SessionRuns.RunAnswersExactlyOnceIff` | src/OpcUaStackClient/ServiceSet/SessionService.cpp:567-672 | In every run of any length each submitted transaction is pending under one id or was answered once to its own service (submitted = answered + pending) if and only if no accepted submission met a request id in use. |
| `SessionRuns.StepDeficit` | src/OpcUaStackClient/ServiceSet/SessionService.cpp:567-672 | Whatever happened before, only such a submission adds to the number of transactions that are neither answered nor pending, and nothing makes it up. |
| `SessionRuns.EveryRunAnswersExactlyOnce` | src/OpcUaStackClient/ServiceSet/SessionService.cpp:567-672 | So it holds in every run with fewer than 2^32 sends. |
| `SessionRuns.SubmissionIsKeptIff` | src/OpcUaStackClient/ServiceSet/SessionService.cpp:612-618 | An accepted submission is accounted for if and only if its request id is free. |
| `SessionRuns.WrapAroundDropsATransaction` | src/OpcUaStackClient/ServiceSet/SessionService.cpp:575-618 | Concrete run: the request id wraps around onto a used one, and the transaction is written but neither stored nor answered. |
| `SessionAnswers.TableHoldsTheWaiting` | src/OpcUaStackClient/ServiceSet/SessionService.cpp:567-672 | In every run the table holds, under each id, exactly the transaction that the events left waiting there: the last one accepted under it while it was free, unless completed since. |
| `SessionAnswers.ResponsesCompleteIff` | src/OpcUaStackClient/ServiceSet/SessionService.cpp:641-672 | In every run, also after wrap-around, a response changes nothing if and only if no transaction waits under its id; otherwise exactly that transaction, whose request was written with this id, leaves the table and is answered with the status of the response. |
| `SessionAnswers.TimeoutsComplete` | src/OpcUaStackClient/ServiceSet/SessionService.cpp:621-639 | In every run a timeout completes exactly the transaction waiting under its id, with BadTimeout if and only if the session is activated, else with BadSessionClosed. |
| `SessionAnswers.SubmissionsAreAcceptedIff` | src/OpcUaStackClient/ServiceSet/SessionService.cpp:567-619 | In every run a submission is answered at once if and only if the channel is not connected or it needs a session that is not activated, with the status for its case; otherwise it is written under the next id and waits there if that id is free. |
| `SessionAnswers.WaitsForReconnectIff` | src/OpcUaStackClient/ServiceSet/SessionService.cpp:198-532 | After a lost channel or a bad url the client waits with an armed timer if and only if it has a session and a reconnect timeout. |
| `SessionWaiters.StepLosesIff` | src/OpcUaStackClient/ServiceSet/SessionService.cpp:248-294 | A step loses a waiter if and only if it is a disconnect between channel-up and activation that replaces a connect waiter. |
| `SessionWaiters.NoWaiterIsLostIff` | src/OpcUaStackClient/ServiceSet/SessionService.cpp:160-532 | In every run no synchronous caller is lost if and only if no such disconnect was processed. |
| `SessionWaiters.ChannelModeLosesNoWaiter` | src/OpcUaStackClient/ServiceSet/SessionService.cpp:479-499 | Without a session no run loses a waiter. |
| `SessionWaiters.EarlyDisconnectLosesTheConnectWaiter` | src/OpcUaStackClient/ServiceSet/SessionService.cpp:284-292 | Concrete failing run: connect, channel up, disconnect. |
| `SessionWaiters.StepSignalsAgainIff` | src/OpcUaStackClient/ServiceSet/SessionService.cpp:408-532 | A step signals an already signalled caller if and only if the channel goes down or an activation is answered while the slot holds a signalled caller. |
| `SessionWaiters.DisconnectCallerIsToldIff` | src/OpcUaStackClient/ServiceSet/SessionService.cpp:408-429 | While a disconnect is in progress its caller has been signalled if and only if an activation was answered after the disconnect. |
| `SessionWaiters.RunSignalsAgainIff` | src/OpcUaStackClient/ServiceSet/SessionService.cpp:408-532 | In every run an event signals a caller again if and only if the channel goes down or an activation is answered while the slot caller's operation is over or was told by such a late activation. |
| `SessionWaiters.EveryCallerIsToldOnceIff` | src/OpcUaStackClient/ServiceSet/SessionService.cpp:160-532 | In every run each caller is signalled at most once if and only if no such event occurs. |
| `SessionWaiters.HonouredSignalsAgainIff` | src/OpcUaStackClient/ServiceSet/SessionService.cpp:501-532 | If each handshake request is answered once, only the channel going down signals a caller again, exactly when the slot is spent. |
| `SessionWaiters.ConnectWaiterIsSignalledTwice` | src/OpcUaStackClient/ServiceSet/SessionService.cpp:520-531 | Concrete run: losing an activated session signals a finished connect call again. |
| `SessionWaiters.DisconnectWaiterIsSignalledTwice` | src/OpcUaStackClient/ServiceSet/SessionService.cpp:423-428 | Concrete run: a late activation signals the caller of a disconnect that is still in progress, and the end of the channel signals it again. |
| `SessionRuns.RunKeepsHandshakeInv` | src/OpcUaStackClient/ServiceSet/SessionService.cpp:358-532 | With each handshake request answered once, activation, token and channel lifetime agree in every run. |
| `SessionRuns.RequestsUseTheActivatedSession` | src/OpcUaStackClient/ServiceSet/SessionService.cpp:582-618 | A session-bound request is written only on an open channel activated in the same lifetime, with the token issued in it. |
| `SessionRuns.NotificationsAreWellFormed` | src/OpcUaStackClient/ServiceSet/SessionService.cpp:198-532 | The notifications of every run form (ServerUriError | optional Connect, then Disconnect)*. |
| `SubscriptionService.ServiceObject.SendPublishRequests` | src/OpcUaStackClient/ServiceSet/SubscriptionService.cpp:335-346 | The window is topped up exactly to the publish count while a subscription exists. |
| `SubscriptionService.ServiceObject.OnCreateSubscriptionResponse` | src/OpcUaStackClient/ServiceSet/SubscriptionService.cpp:202-312 | A new id is added and announced; the first one starts publishing. |
| `SubscriptionService.ServiceObject.SendDeleteSubscriptions` | src/OpcUaStackClient/ServiceSet/SubscriptionService.cpp:211-220 | Exactly the listed ids leave the set. |
| `SubscriptionService.ServiceObject.OnDeleteSubscriptionsResponse` | src/OpcUaStackClient/ServiceSet/SubscriptionService.cpp:222-241 | A failed delete re-inserts the ids, a good one announces their closing. |
| `SubscriptionService.ServiceObject.OnPublishResponse` | src/OpcUaStackClient/ServiceSet/SubscriptionService.cpp:248-279 | The counter falls by one, a closed session closes every subscription once, then the window is topped up. |
| `SubscriptionRuns.RunKeepsWindow` | src/OpcUaStackClient/ServiceSet/SubscriptionService.cpp:222-346 | In every run the counter is the number of unanswered Publish requests and never exceeds the publish count. |
| `SubscriptionRuns.PublishAnswerEffect` | src/OpcUaStackClient/ServiceSet/SubscriptionService.cpp:248-279 | After a Publish answer that says the session is closed no subscription is left, each has exactly one new close notification, and nothing is sent; any other answer changes neither and sends what is missing in the window. |
| `SubscriptionRuns.CreateAnswerEffect` | src/OpcUaStackClient/ServiceSet/SubscriptionService.cpp:202-312 | A successful create of a new id adds it with one open notification and fills the window if it is the only one; any other create answer changes nothing. |
| `SubscriptionRuns.DeleteEffect` | src/OpcUaStackClient/ServiceSet/SubscriptionService.cpp:211-241 | A delete takes its ids out of the set when it is sent, closes each once if it succeeds and puts all back without a notification if it fails. |
| `SubscriptionRuns.StepKeepsFullIff` | src/OpcUaStackClient/ServiceSet/SubscriptionService.cpp:222-233 | A full window stays full if and only if the step is not a failed delete that finds no subscription and a window not full. |
| `SubscriptionRuns.WindowIsFull` | src/OpcUaStackClient/ServiceSet/SubscriptionService.cpp:248-346 | Without such a step the window is full whenever a subscription exists. |
| `SubscriptionRuns.StarvedStaysStarved` | src/OpcUaStackClient/ServiceSet/SubscriptionService.cpp:222-346 | With subscriptions and no Publish under way, no further event starts one while a subscription is left. |
| `SubscriptionRuns.FailedDeleteCanStarve` | src/OpcUaStackClient/ServiceSet/SubscriptionService.cpp:224-233 | Concrete run into that state. |
| `SubscriptionRuns.NotificationsAlternate` | src/OpcUaStackClient/ServiceSet/SubscriptionService.cpp:202-333 | In every orderly run an id is open exactly while it is subscribed or being deleted, and its notifications alternate. |
| `SubscriptionRuns.AlternatingAt` | src/OpcUaStackClient/ServiceSet/SubscriptionService.cpp:293-333 | Consecutive notifications of one id are never both open or both close. |
| `ClientConnection.IndexServer` | src/OpcUaStackClient/ApplicationUtility/ClientConnection.cpp:351-362 | The index of each server URI is its first position. |
| `ClientConnection.BuildNamespaceMap` | src/OpcUaStackClient/ApplicationUtility/ClientConnection.cpp:370-386 | The map is complete if and only if the server knows every configured URI, and then translates each configured index. |
| `ClientConnection.ClientSubscription.Error` | src/OpcUaStackClient/ApplicationUtility/ClientSubscription.cpp:197-204 | Closed, id 0 and every item closed and due now. |
| `ClientConnection.ClientSubscription.CleanUpMonitoredItems` | src/OpcUaStackClient/ApplicationUtility/ClientSubscription.cpp:295-307 | Every item is closed and due now, and no item is added or dropped. |
| `ClientConnection.ClientSubscription.OnCreateSubscriptionResponse` | src/OpcUaStackClient/ApplicationUtility/ClientSubscription.cpp:366-386 | The header decides: open with the id of the response, or in error; after opening, the request for all due items is sent exactly under its conditions. |
| `ClientConnection.ClientSubscription.OpenMonitoredItems` | src/OpcUaStackClient/ApplicationUtility/ClientSubscription.cpp:225-292 | A request is sent if and only if the subscription is open, an item is due and every due index is mapped; it covers every due item exactly once, translated. |
| `ClientConnection.ClientSubscription.DueItems` | src/OpcUaStackClient/ApplicationUtility/ClientSubscription.cpp:234-251 | Exactly the closed items whose time has come, each once. |
| `ClientConnection.ClientSubscription.OnCreateMonitoredItemsResponse` | src/OpcUaStackClient/ApplicationUtility/ClientSubscription.cpp:450-530 | Exactly the items with a good result become open under their server ids. |
| `ClientConnection.ConnectionObject.HandleNamespaceArray` | src/OpcUaStackClient/ApplicationUtility/ClientConnection.cpp:316-390 | Established with a complete translation and all subscriptions opening, or the error state the answer calls for. |
| `ClientConnection.ConnectionObject.HandleConnect` | src/OpcUaStackClient/ApplicationUtility/ClientConnection.cpp:392-402 | Established, and each of the distinct subscription objects is opening. |
| `ClientConnection.ConnectionObject.HandleDisconnect` | src/OpcUaStackClient/ApplicationUtility/ClientConnection.cpp:404-419 | Disconnected; an established connection fails every subscription. |
| `ClientConnection.TranslationKeepsTheUri` | src/OpcUaStackClient/ApplicationUtility/ClientConnection.cpp:351-386 | A translated node id names on the server the URI its index names in the configuration. |
| `ClientConnection.FirstEntryWins` | src/OpcUaStackClient/ApplicationUtility/ClientConnection.cpp:370-386 | Of several entries for one index the first counts. |
| `ConnectionRuns.RunKeepsInv` | src/OpcUaStackClient/ApplicationUtility/ClientSubscription.cpp:172-530 | In every run, requests that the session itself fails included, subscription states, items, unanswered requests and translation agree. |
| `ConnectionRuns.OpenItemsHaveEstablishedConnections` | src/OpcUaStackClient/ApplicationUtility/ClientSubscription.cpp:225-530 | In every run an open item has an open subscription, an established connection and a session. |
| `ConnectionRuns.OpenSubscriptionHasConnectionIff` | src/OpcUaStackClient/ApplicationUtility/ClientSubscription.cpp:366-386 | In every run an open subscription has an established connection if and only if it was not opened by a create that the session failed while no connection was established. |
| `ConnectionRuns.StepKeepsHierarchyIff` | src/OpcUaStackClient/ApplicationUtility/ClientSubscription.cpp:366-386 | A step leaves a subscription open without a connection if and only if it is a rejected or timed-out create while the connection is not established. |
| `ConnectionRuns.RunKeepsHierarchy` | src/OpcUaStackClient/ApplicationUtility/ClientSubscription.cpp:172-530 | Without such a step every open subscription has an established connection. |
| `ConnectionRuns.TimedOutCreateOpensASubscription` | src/OpcUaStackClient/ApplicationUtility/ClientSubscription.cpp:366-386 | Concrete run: a create times out after the session is lost and opens the subscription, which survives the next disconnect. |
| `ConnectionRuns.DisconnectClosesIff` | src/OpcUaStackClient/ApplicationUtility/ClientConnection.cpp:404-419 | After a session disconnect all items are closed and all ids 0, and a subscription is closed if and only if it was not opened that way. |
| `ConnectionRuns.ItemRequestsNameTheConfiguredUri` | src/OpcUaStackClient/ApplicationUtility/ClientSubscription.cpp:255-292 | Each item request an established connection sends covers the due items, and each item names on the connected server the URI its client index names in the configuration. |
| `ConnectionAnswers.ItemsAnswerEffect` | src/OpcUaStackClient/ApplicationUtility/ClientSubscription.cpp:450-530 | After an item answer an item is open if and only if it was or some result gives it an id; it has the id of the last such result, and nothing else changes; without a result list no item changes. |
| `ConnectionAnswers.AnsweredItemsAreOpen` | src/OpcUaStackClient/ApplicationUtility/ClientSubscription.cpp:450-530 | In every run each item of a request that is answered with an id for every item is open under its id, in an open subscription of an established connection. |
| `ConnectionAnswers.NamespacesAnswerEffect` | src/OpcUaStackClient/ApplicationUtility/ClientConnection.cpp:316-402 | The namespace answer establishes the connection, with every subscription opening, if and only if the server knows every configured URI; a missing URI or bad content is an error, a failed read a disconnect, and without configured namespaces nothing changes. |
| `ConnectionAnswers.SessionEffect` | src/OpcUaStackClient/ApplicationUtility/ClientConnection.cpp:404-419 | A lost session disconnects and, if the connection was established, closes every subscription and item from that time on, and nothing else. |
| `ConnectionAnswers.CreateAnswerEffect` | src/OpcUaStackClient/ApplicationUtility/ClientSubscription.cpp:366-386 | A subscription is open under the id of the answer if and only if the header says success, and in error otherwise; items and other subscriptions do not change. |
| `ConnectionAnswers.LostItemsAreRequestedIff` | src/OpcUaStackClient/ApplicationUtility/ClientSubscription.cpp:225-386 | In every run, at any time after a loss and a new establishment, a create that is answered well asks for items if and only if there are any and every namespace index is configured; the request carries the subscription id of the answer and names every item. |
| `HistoryRead.HistoryReader.HRead` | src/OpcUaClient/ClientService/ClientServiceReadH.cpp:86-190 | A read is the recursive specification on the requested nodes. |
| `HistoryRead.HistoryReader.DataRequest` | src/OpcUaClient/ClientService/ClientServiceReadH.cpp:192-302 | One request and all that follow it, in place, equal the specification, for responses of any length. |
| `HistoryRead.HistoryReader.ReadResults` | src/OpcUaClient/ClientService/ClientServiceReadH.cpp:253-291 | The loop over the results equals the fold over them, with its three ways to end: clean, wrong type, or a dereference of a node the request does not have. |
| `HistoryRead.HistoryReader.OutputValues` | src/OpcUaClient/ClientService/ClientServiceReadH.cpp:161-166 | The values are output in order under their node. |
| `HistoryRead.HistoryReader.HDelete` | src/OpcUaClient/ClientService/ClientServiceReadH.cpp:304-362 | One release request with the given points. |
| `HistoryRead.ScanEndsIff` | src/OpcUaClient/ClientService/ClientServiceReadH.cpp:254-291 | For every request and response the scan is clean if and only if no result is of a wrong type or a continued one beyond the nodes of the request, and crashes if and only if the first result that stops it is of the second kind. |
| `HistoryRead.OutputWithoutNodeIff` | src/OpcUaClient/ClientService/ClientServiceReadH.cpp:274-279 | A value is output without a node if and only if the scan gets as far as data with values beyond the nodes of the request. |
| `HistoryRead.ReadCrashesIff` | src/OpcUaClient/ClientService/ClientServiceReadH.cpp:282-290 | A read crashes if and only if one of its data requests is answered with such a response. |
| `HistoryRead.ReadReturnsTrueIff` | src/OpcUaClient/ClientService/ClientServiceReadH.cpp:192-362 | For every server a read returns true if and only if each data request was answered with success and usable results, and the last request is a data request that handed out no point or a release answered with results; otherwise it returns false or crashes. |
| `HistoryRead.LongResponseCrashes` | src/OpcUaClient/ClientService/ClientServiceReadH.cpp:282-290 | Concrete response: one node, two results. |
| `HistoryRead.BudgetIsKept` | src/OpcUaClient/ClientService/ClientServiceReadH.cpp:86-362 | At most max(1, n) data requests for a limit of n, then at most one release, for every server. |
| `HistoryRead.EveryPointIsUsedOnce` | src/OpcUaClient/ClientService/ClientServiceReadH.cpp:169-187 | Every continuation point received with a non-empty page is in the next request or released, once and with its own node. |
| `HistoryPages.RoundKeepsPrefix` | src/OpcUaClient/ClientService/ClientServiceReadH.cpp:254-291 | One response adds the next page of a node or nothing, and the node is asked again only for the page after. |
| `HistoryPages.OutputIsAPrefixOfPages` | src/OpcUaClient/ClientService/ClientServiceReadH.cpp:86-302 | The output of a node listed once is the concatenation of its first pages, for short and long responses, errors of single nodes and aborted reads; only the answers for this node in this read matter. |
| `HistoryPages.HistoryOutputIsAPrefix` | src/OpcUaClient/ClientService/ClientServiceReadH.cpp:86-302 | The same for a whole read from its first request. |
| `HistoryPages.RepeatedNodeRepeatsPages` | src/OpcUaClient/ClientService/ClientServiceReadH.cpp:86-302 | If every data request is answered with the pages asked for of a node without empty pages, the output is, page by page, its first max(1, n) pages, each as often as the node is listed. |
| `HistoryPages.HistoryOutputExactlyIff` | src/OpcUaClient/ClientService/ClientServiceReadH.cpp:86-302 | So exactly its first max(1, n) pages are output if and only if the node is listed once. |
| `Csv.RowRoundTripsIff` | src/OpcUaStackCore/Utility/CSV.cpp:89-122 | A row survives writing and reading if and only if no field holds a quote or a backslash. |
| `Csv.EscapedRowRoundTrips` | src/OpcUaStackCore/Utility/CSV.cpp:99-106 | Every row, whatever its fields hold, is read back from a form in which quotes, backslashes and line ends are escaped. |
| `Csv.UnquotedRowIsRead` | src/OpcUaStackCore/Utility/CSV.cpp:99-106 | Fields without backslash, comma and quote are read back from their text separated by commas. |
| `Csv.TokensFailIff` | src/OpcUaStackCore/Utility/CSV.cpp:99-106 | The tokenizer raises an error if and only if the line has a backslash that is not followed by n, backslash, comma or quote. |
| `Csv.FirstLine` | src/OpcUaStackCore/Utility/CSV.cpp:89-97 | A line is read back if it fits the buffer; a longer one reads as the end of the file. |
| `HistoryCsv.HistoryWriter.ReadCsvLines` | src/OpcUaClient/ClientService/ClientServiceWriteH.cpp:284-361 | Up to 1000 values are taken from the front of what the rest of the file imports as, or the reason why the import stops: bad value, tokenizer exception or missing field. |
| `HistoryCsv.HistoryWriter.WriteCsv` | src/OpcUaClient/ClientService/ClientServiceWriteH.cpp:157-256 | The loop ends for every file; batches hold 1 to 1000 values, all but the last 1000; written means their concatenation is the whole import and all were accepted, halted and refused say why not. |
| `HistoryCsv.RowImportsIff` | src/OpcUaClient/ClientService/ClientServiceReadH.cpp:407-435 | A value imports as exported if and only if a good value is not written as the no-value marker. |
| `HistoryCsv.RowStopsIff` | src/OpcUaClient/ClientService/ClientServiceWriteH.cpp:306-357 | A row stops the import with a bad value if and only if one of its fields cannot be converted, with a missing field if and only if all can and it has fewer than four; otherwise the four parts of the value come from the first four fields in order. |
| `HistoryCsv.LineStopsIff` | src/OpcUaClient/ClientService/ClientServiceWriteH.cpp:284-303 | A line ends the import with a tokenizer exception if and only if it has a bad escape. |
| `HistoryCsv.ExportThenImport` | src/OpcUaClient/ClientService/ClientServiceReadH.cpp:389-446 | The exported file imports as exactly the exported values, without the variant where the status is not good. |
| `HistoryCsv.WriteValues` | src/OpcUaClient/ClientService/ClientServiceReadH.cpp:389-446 | The file holds one line per value, in order. |
| `HistoryCsv.ExportAndSend` | src/OpcUaClient/ClientService/ClientServiceWriteH.cpp:157-361 | Export, then import in batches: the batches concatenate to the exported values. |
| `CommandParser.CommandObject.AddParameterTo` | src/OpcUaClient/ClientCommand/CommandWrite.cpp:67-128 | A parameter is accepted and changes the vectors as specified, or is refused and changes nothing. |
| `CommandParser.CommandObject.Validate` | src/OpcUaClient/ClientCommand/CommandWrite.cpp:48-66 | The completeness condition of each command kind. |
| `CommandParser.Parser.ValidateCurrent` | src/OpcUaClient/ClientCommand/CommandParser.cpp:136-149 | The current command, if any, is complete, or the error names it. |
| `CommandParser.Parser.ParseCommand` | src/OpcUaClient/ClientCommand/CommandParser.cpp:151-190 | A fresh command under the current session, or the reason why not. |
| `CommandParser.Parser.ParseSession` | src/OpcUaClient/ClientCommand/CommandParser.cpp:192-208 | The session of the parser and of the shared current command change together. |
| `CommandParser.Parser.ParseParameter` | src/OpcUaClient/ClientCommand/CommandParser.cpp:210-239 | The shared current command takes the parameter, or the reason why not. |
| `CommandParser.Parser.ParseOne` | src/OpcUaClient/ClientCommand/CommandParser.cpp:98-129 | One loop pass is one step of the specification; no branch dereferences a missing command. |
| `CommandParser.Parser.ParseArguments` | src/OpcUaClient/ClientCommand/CommandParser.cpp:75-134 | For every argv: outcome, error and the distinct returned command objects equal the specification. |
| `CommandGrammar.GroupsPartition` | src/OpcUaClient/ClientCommand/CommandParser.cpp:98-129 | The division at the command parameters concatenates to the arguments and each part begins with its only command parameter. |
| `CommandGrammar.GroupsUnique` | src/OpcUaClient/ClientCommand/CommandParser.cpp:98-129 | Such a division is unique. |
| `CommandGrammar.FoldBuildsGroups` | src/OpcUaClient/ClientCommand/CommandParser.cpp:98-129 | The loop goes on if and only if every group so far stands for a command and all but the last are complete. |
| `CommandGrammar.ParsesIff` | src/OpcUaClient/ClientCommand/CommandParser.cpp:75-134 | A command line parses if and only if it is a non-empty list of pairs whose groups all stand for complete commands, and the result is these commands. |
| `CommandGrammar.FillIff` | src/OpcUaClient/ClientCommand/CommandRead.cpp:59-102 | A Read or Write command accepts its parameters if and only if each fits; its vectors then hold the converted values, and each node the last attribute id given before the next node. |
| `CommandGrammar.ParsedCommandsAreSound` | src/OpcUaClient/ClientCommand/CommandParser.cpp:75-239 | Every returned command is complete, runs under the last session named up to the end of its group, and has vectors of equal length. |
| `CommandText.ParseIgnoresCaseAndBlanks` | src/OpcUaClient/ClientCommand/CommandParser.cpp:75-239 | Letter case of parameter names and commands, and blanks around any argument, do not change the outcome. |
| `CommandText.TrimIff` | src/OpcUaClient/ClientCommand/CommandParser.cpp:84-100 | What is left of an argument is its text without the blanks around it, and nothing else. |
| `CommandText.NodeHasItsAttribute` | src/OpcUaClient/ClientCommand/CommandRead.cpp:59-102 | A node has the last attribute id given before the next node, and 13, the value attribute, if none is given. |
| `CommandText.GroupReadyIff` | src/OpcUaClient/ClientCommand/CommandWrite.cpp:48-66 | A Read is complete if and only if its parameters fit and name a node, a Write if and only if they also give as many values as nodes. |
| `CommandText.FirstPairDecides` | src/OpcUaClient/ClientCommand/CommandParser.cpp:78-95 | No argument, a first argument that is neither command nor help, help and an unknown first command each have exactly their outcome. |
| `CommandText.FirstBadPairDecides` | src/OpcUaClient/ClientCommand/CommandParser.cpp:98-239 | The first pair that does not fit what is before it decides the outcome: help, a parameter the command does not take, a command after an incomplete one, or an unknown command. |
| `CommandText.EndDecides` | src/OpcUaClient/ClientCommand/CommandParser.cpp:98-149 | If every pair fits, the end decides: a missing value or an incomplete last command is an error, and otherwise the commands are returned. |
| `PathList.Find` | src/Tools/UpdateRegistry.cpp:191-191 | The first occurrence at or after a position, or none. |
| `PathList.AddedEntryIsFound` | src/Tools/UpdateRegistry.cpp:189-201 | An entry without separator that is not in the list is found only where it was added. |
| `PathList.FirstIn` | src/Tools/UpdateRegistry.cpp:189-201 | The first occurrence of an entry in the list extended by it, at the latest where it was added. |
| `PathList.AddThenRemoveIff` | src/Tools/UpdateRegistry.cpp:189-214 | For every list and entry, adding and removing gives the list back if and only if the entry is not part of its text and ends with the text from one character before its first occurrence on. |
| `PathList.PlainEntryRoundTripsIff` | src/Tools/UpdateRegistry.cpp:189-214 | An entry without separator round-trips if and only if it was not part of the list. |
| `PathList.RemoveLeavesTheOthers` | src/Tools/UpdateRegistry.cpp:202-214 | Removing an entry without separator from the front, the middle or the end leaves the other entries joined, if no entry before it has it as a part. |
| `PathList.RemovesTheEntryIff` | src/Tools/UpdateRegistry.cpp:202-214 | In a list of at least two entries the first one that contains the given text is removed if and only if it is that text; a list without such an entry stays as it is. |
| `PathList.AddAppends` | src/Tools/UpdateRegistry.cpp:189-201 | Adding an entry that no other one contains puts it at the end. |
| `PathList.PartialEntries` | src/Tools/UpdateRegistry.cpp:189-214 | Concrete failing inputs: an entry contained in another one, and an entry found across the joint. |

## Left out

- Binary encoding, secure channel, sockets, slot timer, pending queue, condition variables and threads: only the contracts above are used.
- Thin forwarding (`syncSend`, `asyncSend`, message dispatch) of the attribute, view, method, query, node management, discovery and monitored item services: it would add easy members only.
- The browser's optional listener: the model always has one; server index and namespace URI of expanded node ids are dropped, as the code drops them; continuation points are kept in their hexadecimal form.
- Attribute values, browse names and display names of extracted nodes; the namespace index map is a function and the information model a map from node id to references.
- Wait on the condition variable of a synchronous call: a signal is an entry in a list, not the counter of the waiter.
- Session timeout, message size, user identity token and the content of service requests and responses.
- Discovery after a lost connection, and user-initiated close, disconnect and deletion of monitored items in `ClientConnection` and `ClientSubscription`: the connection runs are those driven by the session.
- Payload of Publish responses and data change notifications; user-sent Publish requests and changes of the publish count during a run.
- SubscriptionService.ServiceObject.OnPublishResponse: an answer that was never asked for wraps the counter to the 32-bit maximum, as in the code; the runs exclude it because answers belong to requests.
- Console output, time range and value limit of a history read, and a failing CSV output that falls back to the console.
- Opening the CSV file, and NUL characters in its lines; what a process does after an uncaught exception or a read past a row is not modelled beyond naming it.
- CommandParser.Parser.ParseArguments: the parser object is used once, as the client does; the texts of the error messages are an enumeration, and commands other than Read and Write are given by functions of the parameters they have accepted.
- SessionService.SessionObject.AsyncCancelInternal: a cancel on a connected channel without a session is excluded, because the code then reads its missing session configuration (`SessionService.cpp:467`).
- Registry access of the path list tool.
- Remaining client commands, project builder, event type generator, node set filter, server process and XML configuration.
