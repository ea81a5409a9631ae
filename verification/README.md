# rust_toy_box key-value cores in Dafny

This project models the two pieces of key-value logic in the rust_toy_box
repository and proves their map semantics.

- **`KvStore`** (kvs/src/kv.rs) is a string-to-string store with `new`, `set`,
  `get` and `remove` over a `HashMap<String, String>`. Module `KvStore` models
  it as a `map<string, string>`. `set` and `remove` become functions that return
  the new store. `get` returns only the looked-up value, so it cannot change the
  store, matching its `&self` receiver. A history of `set`/`remove` calls is
  checked against an independent reference reading (`LastWrite`): the last
  operation on a key decides what `get` sees.
- **The connection handler `process`** (my-redis/src/main.rs) is the
  read → parse → dispatch → respond loop of the mini-redis server, with the
  socket removed. Module `Frames` declares local stand-ins for the `Frame` and
  `Command` types of the `mini_redis` crate. It keeps only the variants the
  handler touches: `Simple`, `Bulk`, `Null`, and `Get`, `Set`, `Other`.
  Module `Connection` models the loop in three forms:
  - `Step` serves one command against the connection's map.
  - `Run`/`Process` fold `Step` over the frames the connection delivers. Each
    frame has already been passed through `Command::from_frame`.
  - `Serve` is the same loop written imperatively, as the source writes it.

  The outcome is either `Closed` (input exhausted, `Ok(())`) or `Aborted`. An
  abort is a `from_frame` parse error or a `panic!` on an unsupported command.
  Both carry the response frames written before the abort.

The map is created inside `process` (my-redis/src/main.rs:21), so it is
private to one connection and starts empty on each. There is no shared store,
sharding or locking.

## Model

| member | source | states |
|---|---|---|
| KvStore.New | kvs/src/kv.rs:12-16 | a new store has no bindings: `get` of every key is `None` |
| KvStore.Get | kvs/src/kv.rs:26-31 | `get` is `Some` exactly when the key is bound, and then carries the bound value |
| KvStore.Set | kvs/src/kv.rs:18-22 | after `set(k, v)`, `get(k)` is `Some(v)`, every other key reads as before, and the key set grows by exactly `k` |
| KvStore.Remove | kvs/src/kv.rs:33-36 | after `remove(k)`, `get(k)` is `None`, every other key reads as before, and removing an absent key leaves the store unchanged |
| KvStore.SetOverwrites | kvs/src/kv.rs:18-21 | `set(k, v1); set(k, v2)` gives the same store as `set(k, v2)`, so `get(k)` is `Some(v2)` |
| KvStore.RemoveIdempotent | kvs/src/kv.rs:33-35 | removing a key twice gives the same store as removing it once |
| KvStore.ReplayMatchesLastWrite | kvs/src/kv.rs:18-35 | for any history of `set`/`remove` calls, `get(k)` on the resulting store equals the value of the last `set` of `k`, or `None` if the last operation on `k` was a `remove`, or the initial binding if `k` was never touched |
| KvStore.UntouchedKeyKeepsValue | kvs/src/kv.rs:12-35 | a key that no `set` or `remove` of a history mentions keeps its binding, so on a store built by `new` it reads as `None` |
| KvStore.RemovedIsNone | kvs/src/kv.rs:33-35 | a key whose last operation in a history is a `remove` reads as `None`, whatever came before |
| Connection.Step | my-redis/src/main.rs:25-41 | SET binds key to value, leaves every other key as it was and answers `Simple("OK")`; GET leaves the map unchanged and answers `Bulk(v)` with the stored value, or `Null` if the key is absent; any other command panics |
| Connection.Run | my-redis/src/main.rs:23-45 | exactly one response per served frame, in order; the connection ends `Closed` exactly when every frame is a GET or SET, with one response per frame; otherwise it ends `Aborted` at the first other frame, with no response for it, and the reason is that frame's parse error or unsupported command |
| Connection.Serve | my-redis/src/main.rs:20-46 | the imperative loop, starting from an empty map, produces the same outcome as the fold `Process`, which is the model of `process` (`Run` from an empty map) |
| Connection.RunMatchesExpected | my-redis/src/main.rs:25-41 | every written response is the reference answer: `OK` for a SET, and for a GET the value of the last earlier SET of that key on the connection, or `Null` if there is none |
| Connection.GetBeforeSetIsNull | my-redis/src/main.rs:21-37 | the map starts empty for each connection, so a GET with no earlier SET of its key on that connection is answered with `Null` |
| Connection.GetSeesLastSet | my-redis/src/main.rs:26-35 | last write wins: a GET after a SET of the same key, with no other SET of that key in between, is answered with that SET's value |
| Connection.SetGetScenario | my-redis/src/main.rs:23-45 | SET foo bar; GET foo; GET missing closes with responses OK, Bulk(bar), Null |
| Connection.UnsupportedScenario | my-redis/src/main.rs:40 | an unsupported command after a SET aborts with only the SET's response written; the GET after it is never served |

## Left out

- The TCP side of my-redis/src/main.rs (lines 8-18, 22, 23 and 42): binding,
  the accept loop, `tokio::spawn`, and `Connection::read_frame`/`write_frame`.
  Frames are input and output sequences. I/O errors on read or write, which
  also end `process` with an error, are not modelled.
- The frame wire codec and `Command::from_frame`: they live in the
  `mini_redis` crate, which is not part of this model. A frame is given either
  as its decoded command or as the parse error `from_frame` returned.
- The difference between `panic!` and an `Err` return: both end this
  connection's task, and `main` discards the result. The model keeps them
  apart only as the two `Abort` reasons.
- `println!` logging (my-redis/src/main.rs:24, 44).
- Sharding, per-shard locks, lock-poisoning Error frames, and a store shared
  across connections: the code has none of them.
- trunk/src/main.rs (raw `posix_memalign` allocation), http_client (HTTP
  requests and a semaphore over `reqwest`/tokio), my-redis/src/bin/client.rs
  (a channel-based client task), and kvs/src/bin/kvs.rs (a CLI whose every
  subcommand is unimplemented). These are foreign calls, network I/O or
  concurrency, with no key-value logic.
- `HashMap` hashing and iteration order: a Dafny `map` has neither, and no
  operation here depends on them.
