# Fee tracker, hook-salt search and PoA response patch — a Dafny model

This project models the two pieces of logic in the AEGIS dynamic-fee simulation
that are not plumbing against a live chain:

- **The fee tracker** (`simulation/metrics.py`, module `Metrics`). A
  `FeeTracker` is bound to the Dynamic Fee Manager contract and a pool. Each
  `log` call samples the pool's `(base fee, surge fee)` pair and prints
  `BaseFee=<b>ppm, SurgeFee=<s>ppm, TotalFee=<b+s>ppm`. The line gets the
  prefix and a space in front when the prefix is non-empty. The tracker is a
  two-state CAP detector (NOT_IN_CAP / IN_CAP, held in `lastInCap`). It prints
  `>> CAP event START` on a NOT_IN_CAP to IN_CAP edge and `>> CAP event END`
  on the reverse edge. The model is a class with that mutable flag, and `Log`
  returns the lines it prints. Pure functions describe whole runs of `log`
  calls (`StateAfter`, `Markers`, `Transcript`, `CapFlips`). Lemmas prove that
  markers alternate, that STARTs minus ENDs is the CAP flag, and that counting
  false-to-true flips of the flag, as the tests do, counts the STARTs. A
  parser for the status line proves that the printed line carries the sampled
  fees and their sum.
- **Hook-address mining** (`find_salt_for_flags` in
  `simulation/orchestrator.py`, module `HookMining`). This is a linear search
  over CREATE2 salts `0 .. max_loop-1`. It returns the first salt whose
  address, read as a big-endian integer and masked with `HOOK_MASK = 2^14 - 1`,
  equals the requested flags, and it raises otherwise. keccak-256 is a
  function-typed parameter. The search contract (bounds, success condition,
  minimality, failure exactly when no salt qualifies) holds for every hash
  function. Python's `&` is modelled bit by bit (`BitAnd`), and a lemma proves
  that masking with `2^k - 1` keeps the low k bits. `salt.to_bytes(32, "big")`
  raises once a salt reaches 2^256. That case is modelled as the error
  `SaltTooLarge`.
- **The PoA response patch** (`PoaMiddleware.wrap_make_request`, module
  `PoaMiddleware`). A reply with a `result` but no `jsonrpc` gets
  `jsonrpc = "2.0"` and `id = 1`. The code overwrites an existing `id` in that
  case too, and the model does the same. For `eth_getBlockByNumber` and
  `eth_getBlockByHash`, a truthy result lacking `difficulty` gets
  `difficulty = totalDifficulty = "0x0"`. The response is a dict (`JsonDict`)
  patched in place. A pure function `PatchResponse` states the patch, and the
  in-place method is proved equal to it. A block result that is not a dict
  behaves as Python makes it behave: `in` is a substring test on a string and
  a membership test on a list. `in` raises TypeError on a number or boolean,
  and item assignment raises TypeError on a string or list.

Files: `results.dfy` (Option and Result), `metrics.dfy`, `hook_mining.dfy`,
`poa_middleware.dfy`.

## Model

| member | source | states |
|---|---|---|
| `Metrics.FeeTracker.constructor` | simulation/metrics.py:13-16 | a new tracker holds the given contract and pool id and starts NOT_IN_CAP |
| `Metrics.Snapshot` | simulation/metrics.py:22-25 | the snapshot returns the sampled base and surge fee, and its third component is their sum |
| `Metrics.EdgeMarker` | simulation/metrics.py:36-40 | START exactly when the sample is in CAP and the previous state was not; END exactly when the sample is not in CAP and the previous state was; no marker exactly when the state does not change |
| `Metrics.FeeTracker.Log` | simulation/metrics.py:27-42 | afterwards the CAP flag equals `surge_fee > 0` for this sample, whatever it was before; the emitted lines are the status line followed by the marker of this edge, if any; only the CAP flag is modified (`dfm` and `poolId` stay fixed) |
| `Metrics.Message` | simulation/metrics.py:31-33 | with a non-empty prefix the line starts with the prefix and one space; with no prefix or an empty one the line is the bare fee line |
| `Metrics.Decimal` | simulation/metrics.py:31 | an integer renders as a non-empty string of decimal digits whose first digit is `0` exactly for zero |
| `Metrics.DecimalRoundTrip` | simulation/metrics.py:31 | the decimal rendering of every fee reads back as that fee |
| `Metrics.FeeLineRoundTrip` | simulation/metrics.py:28-31 | the fee line parses back into exactly the snapshot it was formatted from: the sampled base fee, surge fee and their sum |
| `Metrics.MessageSuffix` | simulation/metrics.py:31-33 | past the prefix and its space (none when the prefix is missing or empty), a status line is exactly the fee part, which `FeeLineRoundTrip` reads back |
| `Metrics.MarkersAtMostOnePerCall` | simulation/metrics.py:37-40 | a run of `log` calls prints no more markers than it has calls |
| `Metrics.MarkersAlternate` | simulation/metrics.py:37-42 | markers strictly alternate; the first is START from NOT_IN_CAP (END from IN_CAP); the last agrees with the final CAP flag; without markers the flag is unchanged |
| `Metrics.StartEndBalance` | simulation/metrics.py:37-42 | STARTs minus ENDs equals the change of the CAP flag; from a fresh tracker it is 0 or 1 and equals the current flag |
| `Metrics.CapFlipsCountStarts` | tests/test_base_fee_up.py:30-33 | counting false-to-true flips of `_last_in_cap` across `log` calls gives exactly the number of STARTs printed |
| `Metrics.ObserveSteps` | tests/test_base_fee_up.py:17-33 | the stress test's loop (`log(prefix="step=<i>")` per sample, counting flips) leaves the flag at the last sample's CAP state, prints the transcript of the run, prints exactly the markers `Markers` describes (so `MarkersAlternate` and `StartEndBalance` hold of what `log` printed), and counts exactly the STARTs |
| `Metrics.MarkerTextRoundTrip` | simulation/metrics.py:38-40 | the two marker lines are distinct, and each reads back as the marker it was printed for |
| `HookMining.BitAnd` | simulation/orchestrator.py:117 | `x & y` on non-negative integers is at most each operand |
| `HookMining.MaskIsLowBits` | simulation/orchestrator.py:23 | `x & (2^k - 1) == x mod 2^k` for every non-negative x |
| `HookMining.ToBytesBE` | simulation/orchestrator.py:114 | the salt encoding has exactly the requested number of bytes; it is defined only for salts below 256^k, where Python's `to_bytes` does not raise |
| `HookMining.FromBytesBE` | simulation/orchestrator.py:116 | a k-byte big-endian string decodes to an integer below 256^k |
| `HookMining.SaltEncodingRoundTrip` | simulation/orchestrator.py:114 | every salt below 256^k encodes on k bytes and decodes back to itself (k = 32 for salts below 2^256) |
| `HookMining.BytesRoundTrip` | simulation/orchestrator.py:116 | decoding a byte string and re-encoding it on its own length gives it back |
| `HookMining.SaltLimitIs256To32` | simulation/orchestrator.py:114 | the salt bound 2^256 of the search is 256^32: the salts that `to_bytes(32, "big")` accepts are exactly those that fit in 32 bytes |
| `HookMining.Create2Address` | simulation/orchestrator.py:115 | the CREATE2 address is the last 20 bytes of keccak(0xff, deployer, 32-byte salt, keccak(code)), for every salt that fits in 32 bytes |
| `HookMining.AddressBelow2To160` | simulation/orchestrator.py:115-116 | the 20-byte address read as an integer is below 2^160 |
| `HookMining.FindSaltForFlags` | simulation/orchestrator.py:111-119 | on success the salt lies in `[0, max_loop)` and below 2^256, the returned address is that salt's CREATE2 address, its masked value equals `flags`, and no smaller salt qualifies; it raises exactly when no salt below `max_loop` (and 2^256) qualifies, with the overflow error exactly when the range reaches 2^256 |
| `HookMining.FlagsOutsideMaskNeverQualify` | simulation/orchestrator.py:117 | flags that are negative or have a bit above HOOK_MASK never match, so the search raises for them; the masked address is the address mod 2^14 |
| `HookMining.FindHookSalt` | simulation/orchestrator.py:252-258 | the deployment's search with REQUIRED_HOOK_FLAGS and the default bound 200 000 never overflows; a found salt is below 200 000, its address carries exactly the required flags, and its 32-byte form passed to the factory decodes back to it; it raises exactly when no salt below 200 000 qualifies |
| `HookMining.RequiredFlagsFitMask` | simulation/orchestrator.py:22-23 | HOOK_MASK is 0x3FFF and the required hook flags 0x10C4 lie within it |
| `PoaMiddleware.PatchBlockResult` | simulation/orchestrator.py:38-42 | a falsy result, or one already containing `difficulty`, is left as it is; a dict lacking it gains `difficulty` and `totalDifficulty` = "0x0"; a truthy number or boolean raises TypeError on `in`; a string or list lacking it raises TypeError on item assignment |
| `PoaMiddleware.PatchResponse` | simulation/orchestrator.py:31-43 | no key is removed and at most `jsonrpc`/`id` are added at the top level; other entries but `result` are unchanged; a reply with `result` and no `jsonrpc` gets `jsonrpc = "2.0"`, `id = 1`; a reply with `jsonrpc` keeps its `jsonrpc` and `id`; a reply without `result` is unchanged; only block methods touch `result` or raise |
| `PoaMiddleware.BlockPatchIdempotent` | simulation/orchestrator.py:40-42 | patching a block result that was already patched changes nothing |
| `PoaMiddleware.PatchIdempotent` | simulation/orchestrator.py:31-43 | running the middleware's patch on its own output changes nothing |
| `PoaMiddleware.PatchInPlace` | simulation/orchestrator.py:33-43 | patching the response dict in place leaves it equal to `PatchResponse` of its old contents; when TypeError is raised, only the envelope step has been applied |
| `PoaMiddleware.Middleware` | simulation/orchestrator.py:30-44 | the wrapped call returns the forwarded response patched as `PatchResponse` states, or raises the TypeError it names |

## Left out

- `main()` is not modelled: it deploys contracts, mints tokens, swaps, spawns Anvil and sleeps, all network and process I/O.
- `load_artifact` and `compile_create2_factory` are not modelled. They read files and call the solc compiler and the chain.
- keccak-256 is not modelled. It is a parameter of the search, and its internals are irrelevant to the search contract.
- HookMining.FindSaltForFlags: returns the address as its 20 bytes. The EIP-55 checksummed hex string (`to_checksum_address`) is a foreign call whose casing rules are not modelled. The deployer is given as bytes, because decoding its hex string (`Web3.to_bytes(hexstr=...)`) is a foreign call as well.
- Metrics.FeeTracker.Log: the `getFeeState(poolId)` contract call is the `fee` parameter. The on-chain fee computation behind it is not modelled. Printing to stdout is modelled as the returned list of lines.
- Metrics.Snapshot: the contract call is its `fee` parameter. The fees are non-negative integers, as the contract's unsigned return values are.
- PoaMiddleware.PatchResponse: the reply from `make_request` is taken to be a dict, as web3's response type is. The branch for a non-dict reply is not modelled. JSON numbers are integers, and floating-point values are not modelled.
- PoaMiddleware.PatchInPlace: the in-place update of the nested `result` dict is modelled as replacing the response's `result` entry with the updated value. Other aliases of that dict outside the response are not modelled.
- `PoaMiddleware.__init__` and `poa_middleware(w3)` only store the web3 handle, which the patch never uses. They are not modelled.
- The floating-point `sqrt` price encoding in `main()` is not modelled.
- The synthetic market, the `cap_events`, `surge_fees` and `fees` ledgers, the `last_price_*` fields and `setup_simulation` that the tests refer to are not modelled. They are not defined in the modelled files.
- Metrics.ObserveSteps: the stress test's swaps and clock advances between samples are chain I/O and are not modelled. Their effect is the given sequence of samples, of any length rather than the test's 24.
