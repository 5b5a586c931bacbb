# Anchor registry and session protocol of the trilateration server

This project models the core of the ESP trilateration server (`server/server.go`):
the coordination service that anchor nodes connect to over a WebSocket. It covers:

- how a connecting node is named from its remote address (`ESP_` plus the
  host part, with dots and colons turned into underscores);
- the node registry (the `nodes` map, the phone position and the
  calibration map) and every mutation the handlers perform on it: connect,
  the reconnect check, the conditional disconnect, the `lastSeen` refresh,
  distance and position reports, the administrative position write with its
  not-found case, and calibration;
- the gate that recomputes the phone position only when at least three
  nodes report a positive distance, and the 100-iteration descent loop of
  the solver, with the arithmetic of one iteration left opaque;
- the calibration lookup with its `"default"` fallback;
- the read loop of a connection: the identity frame `ID:<id>` sent first,
  `PONG` for a plain `PING`, the identity frame again for `REGISTER`,
  dispatch of JSON messages on their `type`, and no reply to anything else;
- the visualization snapshot and the periodic status report.

Modules: `Records` (the data), `NodeIds` (ID derivation), `Protocol`
(frames and replies), `Solver` (the descent loop), `RegistrySpec` (each
registry mutation as a function on values, with its properties),
`Registry` (the class `NodeRegistry` that holds the state and is proved to
perform exactly those functions) and `Handlers` (one frame, one whole
session).

Where the code and its comments or design notes disagree, the model follows
the code:

- Nodes are keyed by the string derived from the remote IP address, not by a
  hardware identifier, so every connection from one host shares one record
  (`NodeIds.SamePortlessHostSameId`).
- The comment at server/server.go:151-153 says a node keeps its position
  across reconnects. The disconnect does keep it, but the next connect
  rebuilds the record at the origin with zero distance
  (`RegistrySpec.ReconnectResetsPosition`). The record also becomes
  ineligible for trilateration (`RegistrySpec.ConnectClearsEligibility`).
  Calibration pairs do survive, because they live in a separate map that
  no session touches.
- A JSON message of type `calibration` received over the WebSocket has its
  fields stored nowhere; like every frame, it only refreshes the sender's
  `lastSeen`.

## Model

| member | source | states |
|---|---|---|
| NodeIds.LastIndex | server/server.go:102 | the index of the last occurrence of the character, with no occurrence after it, or -1 when there is none |
| NodeIds.ReplaceAll | server/server.go:104 | same length; every occurrence of the character replaced, every other character kept |
| NodeIds.CleanIp | server/server.go:104 | same length as the host; '.' and ':' become '_', everything else is kept; no '.' or ':' remains |
| NodeIds.NodeId | server/server.go:100-105 | the ID is "ESP_" followed by the address up to its last ':', character by character scrubbed; its length is 4 plus that prefix's; it contains no '.' or ':' |
| NodeIds.NodeIdIgnoresPort | server/server.go:100-105 | for host + ":" + port with a colon-free port, the ID is "ESP_" plus the cleaned host |
| NodeIds.SamePortlessHostSameId | server/server.go:100-105 | two connections from one host get the same ID, whatever their ports |
| Protocol.IdFrame | server/server.go:166-168 | the identity frame is a text frame holding "ID:" followed by exactly the node ID |
| Protocol.Reply | server/server.go:227-246 | a reply exists exactly for a plain-text PING or REGISTER; JSON frames and other text get none |
| Protocol.Replies | server/server.go:176-247 | a connection writes at most one reply per received frame |
| Protocol.PingAnsweredInKind | server/server.go:233-238 | PING is answered with PONG in the frame type it arrived in |
| Protocol.RegisterRepeatsGreeting | server/server.go:239-244 | REGISTER is answered with the same identity frame sent on connect |
| Protocol.OnlyControlTextIsAnswered | server/server.go:194-246 | a stream without plain PING or REGISTER produces no replies |
| Protocol.RepliesAreControlFrames | server/server.go:227-246 | every reply is PONG or the identity frame |
| Solver.Run | server/server.go:291-342 | the descent runs at most as many iterations as allowed, and at least one when any is allowed |
| Solver.Trilaterate | server/server.go:291-342 | the loop returns the candidate of the descent function and runs between 1 and 100 iterations |
| Solver.Solve | server/server.go:280-284 | the solver's answer from the origin guess is the candidate after some number of iterations between 1 and 100 |
| Solver.RunFollowsIterates | server/server.go:297-341 | a run of n iterations returns the n-th iterate; no earlier iteration converged; a run that stopped before the cap stopped because its last iteration converged |
| Solver.NoConvergenceRunsToCap | server/server.go:299-339 | when no iteration along the run converges, the descent runs all iterations and returns the last iterate |
| Solver.EarlyStopMeansConverged | server/server.go:323-333 | a descent that stops before the cap returns its n-th iterate, and its n-th iteration (from the (n-1)-th iterate) reported convergence |
| RegistrySpec.Connect | server/server.go:107-119 | the record under the ID is replaced by one holding the new handle and the connect tick, at the origin, with zero distance and RSSI, whatever was there before; every other record is kept |
| RegistrySpec.Reconcile | server/server.go:134-145 | the reconnect check changes at most the record under the ID and never the set of IDs |
| RegistrySpec.Disconnect | server/server.go:147-161 | the disconnect changes at most the record under the ID and never removes it |
| RegistrySpec.Touch | server/server.go:183-188 | the refresh changes at most the sender's record and never the set of IDs |
| RegistrySpec.RecordDistance | server/server.go:197-205 | a distance report changes at most the sender's record and never the set of IDs |
| RegistrySpec.RecordPosition | server/server.go:214-225 | a position report changes at most the sender's record and never the set of IDs |
| RegistrySpec.SetPosition | server/server.go:427-437 | the administrative write reports not-found exactly when the ID is unknown |
| RegistrySpec.CalibrationFor | server/server.go:251-255 | when a "default" pair exists, the lookup yields one of the stored pairs |
| RegistrySpec.Calibrate | server/server.go:363-369 | calibration adds the ID to the calibration map, whether or not a node has it |
| RegistrySpec.FreshNode | server/server.go:108-114 | a new record holds its ID, the new handle and the connect tick, sits at the origin with RSSI 0, and is not eligible |
| RegistrySpec.NextPhone | server/server.go:273-287 | with fewer than three listed nodes the phone is kept, otherwise it becomes a descent iterate (1 to 100 iterations) from the origin over those nodes |
| RegistrySpec.ConnectThenReconcileIsNoop | server/server.go:107-145 | right after a connect, the reconnect check finds its own handle, closes nothing and changes nothing |
| RegistrySpec.ReconcileTakesOver | server/server.go:134-145 | a record with another handle gets the new handle, keeps every other field, and the old handle is returned to be closed |
| RegistrySpec.DisconnectKeepsRecord | server/server.go:147-161 | the record stays; its handle is cleared only if it is the disconnecting one; nothing else changes |
| RegistrySpec.LateDisconnectKeepsNewer | server/server.go:107-161 | when a second connection replaced the record, the end of the first session leaves the newer handle |
| RegistrySpec.ReconnectResetsPosition | server/server.go:107-161 | a position set before a disconnect survives it, but the next connect puts the node back at the origin with zero distance |
| RegistrySpec.TouchOnlyRefreshes | server/server.go:183-188 | a frame refreshes only the sender's lastSeen, and nothing for an unknown sender |
| RegistrySpec.DistanceChangesOnlyReadings | server/server.go:197-205 | a distance report changes only the sender's RSSI and distance, and nothing for an unknown sender |
| RegistrySpec.SetPositionOutcome | server/server.go:427-437 | an unknown ID gives not-found and no change; a known ID gets its new position and nothing else changes |
| RegistrySpec.CalibrateThenLookup | server/server.go:363-369 | after calibrating an ID, the lookup for that ID yields the stored pair |
| RegistrySpec.CalibrateAffectsOnlyItsId | server/server.go:363-369 | calibrating one ID changes another ID's lookup only through the "default" fallback |
| RegistrySpec.LookupFallsBack | server/server.go:251-255 | an ID without its own pair uses the "default" pair |
| RegistrySpec.ListingCountsEligible | server/server.go:266-273 | the collected list holds exactly the IDs with positive distance, one entry each |
| RegistrySpec.GateCountsEligible | server/server.go:261-288 | the phone position is kept when fewer than three nodes have a positive distance, otherwise it is the solver's result from the origin |
| RegistrySpec.DistanceDecidesEligibility | server/server.go:266-271 | a distance report makes its sender eligible exactly when the distance is positive |
| RegistrySpec.ConnectClearsEligibility | server/server.go:107-119 | a connect or reconnect removes the node from the eligible set |
| RegistrySpec.EligibilityOnlyFollowsDistance | server/server.go:266-271 | refreshes, position writes and disconnects do not change which nodes are eligible |
| Registry.NodeRegistry.constructor | server/server.go:65-75 | the server starts with no nodes, the phone at the origin, and only the default pair (-60, 2.0) |
| Registry.NodeRegistry.Connect | server/server.go:107-119 | performs the connect on the node map; phone and calibration unchanged |
| Registry.NodeRegistry.Reconcile | server/server.go:134-145 | performs the reconnect check and returns the handle to close |
| Registry.NodeRegistry.Disconnect | server/server.go:147-161 | performs the conditional disconnect; phone and calibration unchanged |
| Registry.NodeRegistry.Touch | server/server.go:183-188 | performs the lastSeen refresh; phone and calibration unchanged |
| Registry.NodeRegistry.RecordDistance | server/server.go:197-205 | performs the distance update; phone and calibration unchanged |
| Registry.NodeRegistry.RecordPosition | server/server.go:214-225 | performs the reported position update; phone and calibration unchanged |
| Registry.NodeRegistry.SetPosition | server/server.go:427-437 | performs the administrative position write and returns its status |
| Registry.NodeRegistry.Calibrate | server/server.go:363-369 | stores the pair; nodes and phone unchanged |
| Registry.NodeRegistry.CalibrationOf | server/server.go:251-255 | the node's own pair if it has one, otherwise the "default" pair |
| Registry.NodeRegistry.CollectEligible | server/server.go:266-271 | the list, in map iteration order, holds every record with positive distance exactly once and nothing else |
| Registry.NodeRegistry.UpdatePhonePosition | server/server.go:261-288 | the phone position is recomputed from the eligible list only when it has at least three entries; nodes and calibration unchanged |
| Registry.NodeRegistry.Snapshot | server/server.go:379-395 | the payload maps every node ID, and only those, to its position, and "PHONE" to the phone position |
| Registry.NodeRegistry.Report | server/server.go:447-471 | one entry per node: connected exactly when it holds a handle, its position and the time since it was last seen; the phone line only when there are nodes |
| Handlers.ApplyFrame | server/server.go:183-226 | a frame refreshes lastSeen; only a distance report changes RSSI and distance; only a decodable position report changes the position; ID and handle never change |
| Handlers.Replay | server/server.go:176-247 | folding the frames over a record keeps its ID and handle and leaves lastSeen at the last frame's tick |
| Handlers.ReplayFacts | server/server.go:176-247 | over a session, position, RSSI and distance change only through their reports |
| Handlers.MapAfterStep | server/server.go:176-247 | the map after one more frame is the previous map with the sender's record updated by that frame alone |
| Handlers.RepliesStep | server/server.go:229-245 | one more frame adds its own reply, if it has one, after the replies so far |
| Handlers.NoDistanceKeepsPhone | server/server.go:196-247 | a run of frames with no distance report leaves the phone where it was |
| Handlers.PhoneAfterStep | server/server.go:196-288 | one more frame extends the account of the phone: it moves only when the frame is a distance report that finds at least three eligible nodes |
| Handlers.HandleFrame | server/server.go:183-246 | one loop iteration updates only the sender's record as ApplyFrame says, returns the reply, and recomputes the phone only for distance reports |
| Handlers.ReadLoop | server/server.go:176-247 | the loop writes exactly the replies of its frames in order, replays every frame onto the sender record, and leaves other nodes and calibration unchanged; the phone is unchanged unless a distance report found at least three eligible nodes, and otherwise it is the solver's result over the eligible nodes at the last report that did |
| Handlers.ReadStep | server/server.go:176-247 | one loop iteration carries the session's account one frame further: the map, the replies and the phone after frame i+1, calibration untouched |
| Handlers.SessionEnd | server/server.go:176-247 | once every frame is read, the session's map is the original map with the sender's record replayed over all frames, and with no distance report the phone is unchanged |
| Handlers.HandleMessages | server/server.go:133-248 | the reconnect check installs the new handle, the identity frame goes first, then one reply per PING or REGISTER; the record is the replayed record with its handle cleared at the end; other nodes and calibration are unchanged; the phone follows the distance reports as in ReadLoop |
| Handlers.WsHandler | server/server.go:100-248 | the session sends the identity frame and then one reply per PING or REGISTER; the record under the derived ID is the replayed fresh record with its handle cleared; other nodes and calibration are unchanged; the phone is the solver's result at the last distance report that found at least three eligible nodes, or unchanged if none did |

## Left out

- Floating point: positions, distances and calibration pairs are reals, with no rounding and no NaN or infinity.
- The RSSI-to-distance formula with `math.Pow` (server/server.go:257) is not modelled; only the calibration lookup before it is (`CalibrationOf`, `CalibrationFor`). The server never calls this function.
- Solver.Trilaterate: the body of one descent iteration (gradients, `math.Sqrt`, step size 0.1, threshold 0.001; server/server.go:300-333) is the opaque `step` parameter, so nothing is proved about the position it converges to. The accumulated squared error is only logged and is left out.
- Concurrency: the read/write lock, the goroutine per connection and the status goroutine are not modelled. Sessions run one after another, and each registry method is one critical section. The write to `phonePosition` under a read lock (server/server.go:262-287) is a data race, and the model does not capture it. Interleaved sessions over the same ID are represented only by the lemmas about successive connects and disconnects.
- Registry.NodeRegistry.Reconcile returns the old handle instead of closing it. If that handle were nil, Go would panic at server/server.go:141. That cannot happen when sessions run one at a time (`ConnectThenReconcileIsNoop`).
- WebSocket plumbing: the upgrade and its failure path, the control-frame ping handler (server/server.go:124-127), the 500 ms sleep and logging are left out.
- Write failures are left out. A failed write ends the read loop, which the model captures as a frame sequence that ends after that frame. The frame list `sent` then includes the write that failed.
- JSON decoding is done before the model sees a frame. A frame that decodes as a `Message` is `Structured`, and any other frame is `Plain`. A `position` message carries the result of decoding it a second time as a `Position` (`None` when that fails).
- HTTP handling is left out: method checks, status codes for bad JSON, response bodies and CORS headers. Only the not-found outcome of set-node-position is modelled.
- NodeIds.NodeId requires the address to contain ':'. Without one, Go's slice at server/server.go:102 panics.
- Time: `time.Now()` is a tick supplied by the caller. The status report's age is the difference of ticks, without rounding to seconds.
- The embedded HTML test page (`homeHandler`) and `main` (server startup and the status timer) are left out.
