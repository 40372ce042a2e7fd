# FL-Development core, modelled in Dafny

This project models the sequential core of a federated-learning prototype and proves properties of it. The core has four parts:

- **Federated-dropout codec** (`compressor.py`, module `Compressor`). `compress` flattens each layer's weights and deletes a seeded random set of positions. It records the original size, shape and bias. `decompress` rebuilds every layer: it walks the positions with a second counter `z`, writes zero at each dropped position and copies `weights[i - z]` at the others. `decompress` always uses drop rate 0.5 and seed 123, whatever `compress` used. The model makes this visible: round-tripping gives the original weights at kept positions and zero at dropped ones only when `compress` drew the drop set that `decompress` derives (lemma `RoundTripSameDraw`). Seed 123 with a rate whose drop count `int(size*rate)` equals `int(size*0.5)` guarantees this (lemma `RoundTripSameDropCount`). Another seed may happen to draw the same set, and always does for a layer of fewer than two weights when nothing is dropped (lemma `SmallLayerRoundTrip`). A rate whose drop count `int(size*rate)` exceeds `int(size*0.5)` ends in an IndexError. A smaller or equal rate with a different drop set silently zeroes a value that was kept.
- **Plaintext aggregation** (`server_trainer.py`, module `ServerTrainer`; `FL-server-latest.py`, module `FLServer`). Both operate on model states, shared through module `StateDict`. `ServerTrainer.aggregate` takes the keywise mean of the updates over a zeroed network state. The draft `ML_Server.aggregate` behaves differently:
  - it rejects an empty list;
  - it returns a single update unchanged;
  - otherwise it adds the updates onto a freshly built network's state before dividing, so its result is the mean only when that base state is zero (lemma `FLServer.CombinedMeanOffset`).
- **Index structure of the multi-party CKKS adapter** (`mphe/export.go`, module `MpheExport`). Covers `transpose`, the slot-wise `aggregate` fold into the first ciphertext list, `mulByConst`, and the share-folding loops of `colKeySwitch` and `colKeyGen`. Ciphertexts, shares and keys are type parameters. The Lattigo operations (`Add`, `MultByConst`, `AggregateShares`, `KeySwitch`, `GenShare`, `GenPublicKey`) are function parameters. The lemmas assume decryption (or the value a share stands for) is additive, and under that assumption show the folds compute sums and the scaled aggregate a mean.
- **Barrier broadcast chat server** (`server.py`, module `ChatServer`). The server state is a class `Server` with four fields:
  - the client list of `(conn, addr)` pairs;
  - the map from address to pending message;
  - an outbox of send attempts;
  - the list of closed sockets.

  `broadcast` fires only once every listed client has answered. It then clears every listed slot and sends to each client in list order. A failing send closes the socket, and the `remove(conn)` call that follows never matches a `(conn, addr)` entry.

`np.random.choice` is a parameter `choice: (n, k, seed) -> seq<nat>`. The ghost predicate `ValidChooser` says what numpy guarantees of it: `k` distinct values below `n`. Network I/O is left out. So are the success or failure of a send, which is a nondeterministic flag, and the random initial weights of a new network, which are an explicit `base` state.

## Model

| member | source | states |
|---|---|---|
| Compressor.Insert | compressor.py:74 | the result is the input with one more copy of `x`: the same multiset plus `x`, one longer, holding exactly the input's elements and `x` |
| Compressor.InsertAbove | compressor.py:74 | a bound below `x` and below every element of the input is below every element of the result |
| Compressor.InsertSorted | compressor.py:74 | inserting into an ascending sequence keeps it ascending |
| Compressor.InsertStrict | compressor.py:74 | inserting a new element into a strictly increasing sequence keeps it strictly increasing |
| Compressor.SortAscending | compressor.py:74 | `sort()` yields a permutation of its input (the same multiset) in ascending order, strictly increasing when the input is distinct |
| Compressor.RandomIndex | compressor.py:71-75 | succeeds exactly when numpy accepts the seed (`0 <= seed < 2**32`) and the sample size `int(n*rate)` (ValueError otherwise); the indices are strictly increasing, below `n`, `int(n*rate)` of them, and depend only on `(n, rate, seed)` |
| Compressor.DropCount | compressor.py:73 | the sample size `int(maxRange * rate)` lies in `[0, maxRange]` whenever the rate lies in `[0, 1]` |
| Compressor.ScaleBounds | compressor.py:73 | a non-negative size scaled by a rate in `[0, 1]` stays between 0 and the size |
| Compressor.SameDropCountSameDraw | compressor.py:71-75 | `random_index` depends on the rate only through the drop count: two rates with the same `int(maxRange * rate)` give the same result |
| Compressor.DefaultRateFits | compressor.py:71 | the default rate 0.5 is always an acceptable sample size for any layer size |
| Compressor.DecompressIndices | compressor.py:54 | the drop set used by `decompress`: rate 0.5, seed 123, strictly increasing, in range, `int(size*0.5)` long |
| Compressor.RankSplit | compressor.py:55-62 | while the loop is at `i`, the counter `z` equals the number of dropped positions below `i` |
| Compressor.KeptIndexBound | compressor.py:62 | at a kept position `i`, `i - z` is a valid index into the weights of a layer compressed with the same drop set |
| Compressor.KeptCountBound | compressor.py:57-62 | if every kept position found its weight, the weights number at least `size - len(zero_indices)` |
| Compressor.Trunc | compressor.py:73 | Python's `int()` of a real truncates toward zero: the result is on the same side of zero and less than one away |
| Compressor.Rank | compressor.py:55-62 | the counter `z` at position `i` (the dropped positions below `i`) never exceeds the number of dropped positions |
| Compressor.Delete | compressor.py:35 | `np.delete` never lengthens the list, and every value it keeps comes from the input |
| Compressor.DeleteLength | compressor.py:35 | `np.delete` removes exactly the listed positions that exist |
| Compressor.DeleteAt | compressor.py:35 | the value at kept position `i` ends up at `i - (dropped positions below i)` |
| Compressor.DeleteKeepsOrder | compressor.py:35 | kept values keep their relative order |
| Compressor.DeleteKeeps | compressor.py:31-35 | the compressed weights number `size - len(drop)` and are the original kept values, in order |
| Compressor.CompressLayer | compressor.py:28-41 | one layer succeeds exactly when numpy accepts the seed and the sample size (ValueError otherwise); it then records the flattened length, the shape and the bias, with no more weights than the layer had |
| Compressor.CompressLayerFacts | compressor.py:31-41 | a compressed layer records size = flattened length, the original shape, the bias unchanged, and `size - int(size*rate)` weights equal to the kept originals |
| Compressor.Compress | compressor.py:22-43 | one entry per layer in order, each the layer's compression; ValueError exactly when some layer's seed or sample size is refused (the seed is never checked for a model without layers) |
| Compressor.Refilled | compressor.py:52 | the rebuilt array has `size` entries |
| Compressor.RefilledAt | compressor.py:57-62 | the rebuilt entry at `k` is 0 when `k` is dropped and the next kept weight otherwise |
| Compressor.Reconstruct | compressor.py:52-65 | rebuilding with a given drop set succeeds exactly when enough weights remain and the shape's product is the size; IndexError exactly when the weights run short (that is found first), ValueError otherwise; a success has the stored shape and `size` values |
| Compressor.ReconstructAt | compressor.py:52-65 | with the hard-coded drop set: success exactly when at least `size - int(size*0.5)` weights remain and the shape matches, then with the stored shape and `size` values |
| Compressor.ReconstructFromValues | compressor.py:52-65 | any array holding 0 at dropped positions and the kept weights elsewhere is the reconstruction |
| Compressor.Spread | compressor.py:55-62 | the loop succeeds exactly when the weights suffice (no IndexError) and then leaves 0 at every dropped position and `weights[i - z]` at every other |
| Compressor.Refill | compressor.py:52-65 | one layer's rebuild equals the reconstruction: IndexError when too few weights, ValueError when the shape does not match the size, else the refilled tensor |
| Compressor.DecompressLayer | compressor.py:50-65 | one layer of `decompress` with the hard-coded drop set |
| Compressor.LayerResults | compressor.py:50-65 | one reconstruction per compressed entry |
| Compressor.Assemble | compressor.py:49-68 | a success has two entries per layer; a failure carries the error of some layer's reconstruction |
| Compressor.AssembleStep | compressor.py:50-68 | after a successful prefix, one more layer either fails with its own error or appends its `.weight` and `.bias` entries |
| Compressor.AssembleFailureSticks | compressor.py:50-68 | once a layer fails, `decompress` fails with that layer's error |
| Compressor.AssembleSucceeds | compressor.py:48-68 | `decompress` succeeds exactly when every layer's reconstruction does |
| Compressor.AssembleFirstFailure | compressor.py:48-68 | a failure of `decompress` is the error of the first failing layer |
| Compressor.AssembleLayout | compressor.py:66-67 | on success, layer `k` yields `<name>.weight` with its tensor at entry `2k` and `<name>.bias` with the stored bias at `2k+1` |
| Compressor.Decompress | compressor.py:48-68 | `decompress` equals the ordered assembly of every layer's reconstruction |
| Compressor.Masked | compressor.py:57-62 | the masked weights have the original length |
| Compressor.RoundTripAtDefaults | compressor.py:22-68 | compressing at rate 0.5 and seed 123 and reconstructing gives the original shape, the original values at kept positions and 0 at dropped positions |
| Compressor.DeleteThenReconstruct | compressor.py:35-65 | deleting a sorted drop set and rebuilding with the same set gives the original shape, the original values at kept positions and 0 at dropped ones |
| Compressor.RoundTripSameDraw | compressor.py:22-68 | whatever the rate and seed, when `compress` drew the drop set `decompress` derives, reconstructing gives the original shape, the original values at kept positions and 0 at dropped positions |
| Compressor.RoundTripSameDropCount | compressor.py:22-68 | compressing at seed 123 with any rate whose drop count `int(size*rate)` equals `int(size*0.5)` and reconstructing gives the original shape, the original values at kept positions and 0 at dropped positions |
| Compressor.SmallLayerRoundTrip | compressor.py:22-68 | a layer of fewer than two weights, compressed at any accepted seed with a rate that drops nothing, reconstructs to exactly its original weights |
| Compressor.ReconstructKept | compressor.py:52-65 | a layer holding the kept originals reconstructs to the masked original |
| Compressor.HigherRateFails | compressor.py:54-62 | compressing with a rate that drops more positions than 0.5 makes reconstruction fail with IndexError |
| Compressor.IncreasingUnique | compressor.py:74 | a sorted drop set is determined by which positions it holds |
| Compressor.MissingElement | compressor.py:54 | two different sorted drop sets differ in a position that the larger one drops |
| Compressor.MismatchedDropSetLosesKeptValue | compressor.py:22-68 | compressing with a different drop set that is no larger succeeds on reconstruction but zeroes a position `compress` kept |
| Compressor.OutputKeysDistinct | compressor.py:66-67 | weight and bias keys never collide, and distinct layer names give distinct keys |
| Compressor.CompressThenDecompress | compressor.py:22-68 | `decompress(compress(model))` at the defaults succeeds with `2n` entries: each layer's masked weight tensor and its unchanged bias, in order |
| StateDict.Total | server_trainer.py:34-35 | no contract of its own: the running sum of the `+=` loop, an update lacking the key adding nothing; TotalAppend, TotalRemove, TotalPermutation and TotalAbsent state its properties |
| StateDict.TotalAbsent | server_trainer.py:34-35 | updates that all lack a key sum to 0 for it |
| StateDict.TotalAppend | server_trainer.py:34-35 | the running sum over two lists in turn is the sum of their sums |
| StateDict.TotalRemove | server_trainer.py:34-35 | removing one update from the list removes exactly its contribution |
| StateDict.TotalPermutation | server_trainer.py:34-35 | the sum over the updates does not depend on their order |
| StateDict.MatchLast | server_trainer.py:34 | the last update of a list occurs in any rearrangement of it, and the rest match |
| StateDict.TotalOfCopies | server_trainer.py:34-35 | `n` copies of the same update sum to `n` times its value |
| ServerTrainer.Mean | server_trainer.py:28-40 | the mean has exactly the network's keys |
| ServerTrainer.GetZeroState | server_trainer.py:56-63 | the zero state has the network's keys and every entry 0 |
| ServerTrainer.Accumulate | server_trainer.py:34-35 | accumulating one key over the updates adds their values in order, and fails exactly when some update lacks the key |
| ServerTrainer.Aggregate | server_trainer.py:28-40 | succeeds exactly when every update carries every network key (KeyError otherwise), and then equals the keywise mean |
| ServerTrainer.MeanOfOne | server_trainer.py:33-38 | the mean of one update is that update on the network's keys |
| ServerTrainer.MeanOfCopies | server_trainer.py:33-38 | the mean of identical updates is that update |
| ServerTrainer.MeanOrderIndependent | server_trainer.py:33-38 | the mean does not depend on the order of the updates |
| FLServer.CombinedMean | FL-server-latest.py:61-67 | the draft's result has exactly the base state's keys |
| FLServer.Aggregate | FL-server-latest.py:53-69 | no updates: the "No updates to aggregate" error; one update: that update itself; more: success exactly when every update's keys are in the base state (KeyError otherwise), each key then `(base[key] + Σ updates[key]) / n` |
| FLServer.AddUpdate | FL-server-latest.py:63-64 | adding one update keeps the keys and adds its value at each of its keys, failing exactly when it has a key the state lacks |
| FLServer.DivideAll | FL-server-latest.py:66-67 | every key is divided once by `n` |
| FLServer.CombinedMeanOffset | FL-server-latest.py:61-67 | the draft's result is the mean plus `base / n` keywise, so it equals the mean exactly when the base state is zero |
| FLServer.CombinedMeanOrderIndependent | FL-server-latest.py:62-64 | the draft's result does not depend on the order of the updates |
| FLServer.MLServer.constructor | FL-server-latest.py:47-48 | the server starts out holding the state of the network it built |
| FLServer.MLServer.Update | FL-server-latest.py:71-72 | strict loading: succeeds exactly when the key sets agree, then the model state is the given one; matching entries are copied either way and no key is added |
| MpheExport.Transposed | mphe/export.go:647-665 | no contract of its own: the transpose of the first `len(slice[0])` columns; Transpose and TransposedTwice state its properties |
| MpheExport.Transpose | mphe/export.go:647-665 | `len(slice[0])` rows of `len(slice)` entries, entry `(i, j)` being `slice[j][i]` |
| MpheExport.TransposedTwice | mphe/export.go:647-665 | transposing a rectangular slice twice gives it back |
| MpheExport.SlotSum | mphe/export.go:222-226 | slot `i` of the aggregate fold over the first `m` lists; when no later list reaches slot `i`, it is `cts[0][i]` unchanged |
| MpheExport.Aggregate | mphe/export.go:207-229 | nil for no lists; otherwise `len(cts[0])` slots, slot `i` being `cts[0][i]` with every later list's slot `i` added on in order |
| MpheExport.SlotSumDecrypts | mphe/export.go:222-226 | under additive decryption, an aggregate slot decrypts to the sum of the decrypted slots |
| MpheExport.MulByConst | mphe/export.go:232-246 | every ciphertext scaled by the constant, the count kept |
| MpheExport.ScaledAggregateIsMean | mphe/export.go:207-246 | aggregating n lists and scaling by 1/n decrypts slot-wise to the plaintext mean |
| MpheExport.FoldShares | mphe/export.go:162-164 | no contract of its own: the `AggregateShares` loop, folding each share into the running combination in order; FoldSharesAdds states what it computes |
| MpheExport.FoldSharesAdds | mphe/export.go:162-164 | folding shares with an additive aggregation stands for their sum on top of the start value |
| MpheExport.Column | mphe/export.go:144-159 | row `i` of the transposed shares holds every client's `i`-th share, in client order |
| MpheExport.KeySwitchShares | mphe/export.go:159-160 | the list combined for ciphertext `i` holds the `n` client shares for it and then the server share, `n + 1` in all |
| MpheExport.ColKeySwitch | mphe/export.go:140-173 | one output per ciphertext; ciphertext `i` is key-switched with the fold of its `n + 1` shares |
| MpheExport.KeySwitchShareIsClientSum | mphe/export.go:153-164 | with a zero server share and additive aggregation, that fold stands for the clients' shares for ciphertext `i` summed |
| MpheExport.FirstPolys | mphe/export.go:192-196 | the first polynomial of each client's share, in order |
| MpheExport.ColKeyGen | mphe/export.go:176-204 | the public key is derived from the fold of every client's first polynomial and then the server's generated share |
| MpheExport.KeyGenShareIsSum | mphe/export.go:185-197 | that fold covers `n + 1` shares and stands for the clients' sum plus the server's share |
| ChatServer.RemoveFirst | server.py:12 | `list.remove` shortens the list by at most one |
| ChatServer.RemoveFirstFacts | server.py:10-12 | `list.remove` drops one copy of an element that is there and leaves the list unchanged otherwise |
| ChatServer.RemoveFirstSplit | server.py:12 | the removed copy is the first one; everything before and after it is kept in order |
| ChatServer.RemoveKeepsClients | server.py:10-12 | removing keeps the list a list of `(conn, addr)` pairs |
| ChatServer.RemoveSocketIsNoOp | server.py:27-31 | `remove(conn)` with a bare socket never matches a `(conn, addr)` entry, so it changes nothing |
| ChatServer.GateOf | server.py:16-18 | no contract of its own: the scan's outcome in list order; GateOfMeaning states what it means |
| ChatServer.GateOfMeaning | server.py:15-18 | the scan lets the broadcast through exactly when every listed client has answered; otherwise it stops at the first client with no slot (KeyError) or an empty one (return) |
| ChatServer.Cleared | server.py:21-22 | clearing keeps the set of addresses with a slot |
| ChatServer.ClearedStep | server.py:21-22 | clearing one more listed client sets its slot to None on top of the earlier ones |
| ChatServer.SendsStep | server.py:21-31 | one more send goes to the next listed client with the message, and a failed one adds its socket to the closed ones |
| ChatServer.Server.constructor | server.py:5-7 | the list and the map start out empty |
| ChatServer.Server.Accept | server.py:79 | accepting appends the `(conn, addr)` pair and changes nothing else |
| ChatServer.Server.Register | server.py:35 | a new client's slot starts out None |
| ChatServer.Server.Remove | server.py:10-12 | the list loses the first copy of the element if it has one; nothing else changes |
| ChatServer.Server.Scan | server.py:15-18 | the scan's outcome, in list order |
| ChatServer.Server.Broadcast | server.py:14-31 | when not every listed client has answered, nothing changes; otherwise every listed slot becomes None, one send of `msg` per listed client in list order, failed sends closed, the list unchanged |
| ChatServer.Server.Receive | server.py:34-58 | a non-empty message sets the sender's slot to `"<host> message"` and broadcasts that text, the failed sends' sockets joining the closed ones; an empty one changes nothing |
| ChatServer.LastArrivalReleases | server.py:14-49 | the last of the listed clients to answer releases the barrier |
| ChatServer.OthersPendingHolds | server.py:14-49 | while another listed client has not answered, an answer does not release the barrier |
| ChatServer.ClearedWaits | server.py:21-22 | after a broadcast, the next scan waits as long as any client is listed |

## Left out

- Tensors are a single real per state-dict key, and weights are reals. Floating-point rounding, NaN and torch broadcasting are not modelled.
- Compressor.DropCount: the drop count `int(max_range*dropout_rate)` (compressor.py:73) is the exact truncation (`Trunc`) of the real product. Python multiplies floats, and the product can land just below an integer: `int(100*0.29)` is 28 where `Trunc` gives 29.
- The algorithm inside `np.random.choice` is not modelled. It is a parameter, constrained only by what numpy guarantees (distinct values in range, as many as asked).
- `reshape` is modelled by its failure condition (size differs from the shape's product, ValueError); the nested layout of the reshaped tensor is not.
- ServerTrainer.Aggregate: requires at least one update; with none, torch divides by zero and yields NaN rather than an exception, and NaN is not representable here.
- MpheExport.Aggregate: requires that no later list is longer than the first; otherwise Go panics with an index out of range.
- MpheExport.Aggregate: returns the sums by value; that Go updates `cts[0]` in place, aliasing the caller's first list, is not modelled.
- MpheExport.Transpose: requires a non-empty slice whose rows cover the first row, the cases where Go does not panic; the result is built by value updates, not as a freshly allocated 2-D slice.
- MpheExport.ColKeySwitch: requires the preconditions of `transpose` and at least as many shares per client as ciphertexts, since Go panics otherwise. Go also panics for zero ciphertexts, because `convData` takes `&ciphertexts[0]` (mphe/export.go:561); the model returns an empty list there.
- MpheExport.Aggregate: Go panics in `convData` when the first list is empty; the model returns `Some([])` there.
- MpheExport.MulByConst: Go panics in `convData` for empty data; the model returns an empty list there.
- MpheExport.ColKeyGen: requires every client to send at least one polynomial, since Go reads `shares[i][0]`.
- The fresh shares Lattigo allocates (`AllocateShare`) are one blank value passed in. The cryptography itself is function parameters: Lattigo is not part of this model.
- The conversion helpers of mphe/export.go (`conv…`, `C.malloc`, `unsafe.Pointer` casts) are not part of this model.
- The socket bind / listen / accept loop, `recv`, the per-client threads and the unlocked sharing of `list_of_clients` and `client_messages` across threads are not modelled. The state transitions are sequential.
- ChatServer.Server.Receive: an exception raised by `recv` or by `broadcast` (the KeyError of a missing slot) is caught by `except: continue` in the source. The model returns the scan's outcome instead, and `clientthread`'s endless loop is one call per received message.
- ChatServer.Server.Broadcast: the slot updates and the sends are collected locally and written to the fields together at the end. Nothing runs between them in the sequential model.
- `print` calls, `get_model`, ServerTrainer's `update`, `compute_accuracy`, `save_to_csv` and `load_test_data`, training code, plotting, and the CKKS client and server wrappers are outside the modelled core.
