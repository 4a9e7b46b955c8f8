# Fuzzy LFU response cache and authorization chain, in Dafny

This project models two parts of the PocketLLM back end and proves properties of them.

**The response cache** (`caching.py`). `LFUCache` is a bounded dict from 64-bit Simhash
values to `[value, hit_count]` pairs.
- `add_cache` evicts the least frequently used entry when the dict is full, then stores the
  new value with a hit count of 0.
- `check_cache` finds the cached key nearest to the query by Hamming distance. It returns that
  key's value when the similarity `1 - d/64` is at least 0.8, and counts the hit.
- `CacheManager` hashes prompts with Simhash and delegates to the cache.

The dict is modelled as a sequence of `Entry(key, value, hits)` in insertion order, because that
order decides every tie: the first minimum in `remove_lfu`'s `min` and in `check_cache`'s strict
`<` scan. Specification functions on that sequence (`Put`, `Evict`, `AddResult`, `NearestIndex`,
`CheckResult`, `AfterCheck`) say what each operation does. The classes `LFUCache` and
`CacheManager` update the sequence in place and are proved against those functions.
`CheckCache` keeps the source's loop. The lemmas state the promised properties:
- the size bound;
- the stored `[value, 0]`;
- the eviction rule;
- the lookup rule;
- frame conditions;
- a stored value is found again by its own hash.

**The authorization chain** (`auth.py`). `get_current_user` admits a user only if the token
decodes, the user exists and is active, checked in that order (401, 401, 403).
`require_role`, `require_admin` and `require_developer` then check the user's role (403).
These are pure functions over the outcome of JWT decoding and a map from user id to user.

Files:
- `wrappers.dfy` holds `Option`.
- `hamming.dfy` holds the popcount and the Hamming distance.
- `caching.dfy` holds the cache.
- `auth.dfy` holds the authorization chain.

## Model

| member | source | states |
|---|---|---|
| Hamming.PopCount | caching.py:20 | the bit count of a 64-bit value is at most 64, and is 0 exactly for 0 |
| Hamming.Distance | caching.py:20 | the distance `popcount(a ^ b)` is at most 64, and is 0 exactly when the two hashes are equal |
| Hamming.OnesBounds | caching.py:20 | a number below 2^n has at most n one-bits, and has none only when it is 0 |
| Caching.ArgMin | caching.py:18-23 | returns the position of the least score, the first such position on a tie |
| Caching.IndexOf | caching.py:11 | finds the position of a key in the dict, or reports that no entry holds it |
| Caching.IndexOfDistinct | caching.py:6 | in a dict, a key finds its own entry |
| Caching.PutShape | caching.py:11 | assignment overwrites an existing key at its own position and appends a new key at the end |
| Caching.PutStores | caching.py:11 | after assignment the key holds `[value, 0]`; the dict grows by one only for a new key |
| Caching.PutKeepsDistinct | caching.py:11 | assignment keeps every key at most once in the dict |
| Caching.PutLookupOther | caching.py:11 | assignment leaves the entry of every other key unchanged |
| Caching.PutFrame | caching.py:11 | assignment keeps the keys distinct and leaves every other key's entry unchanged |
| Caching.LfuIndex | caching.py:38 | the evicted entry has the fewest hits, and every earlier entry has strictly more |
| Caching.DeleteKeepsDistinct | caching.py:39 | `del` keeps every key at most once in the dict |
| Caching.DeleteLookup | caching.py:39 | after `del` the deleted key finds nothing and every other key finds its old entry |
| Caching.DeleteFrame | caching.py:39 | `del` removes exactly that key, shrinks the dict by one and keeps all other entries |
| Caching.EvictFrame | caching.py:36-39 | `remove_lfu` removes only the least frequently used entry; the rest keep their values, hits and order |
| Caching.AddResult | caching.py:8-11 | `add_cache` fails (the `ValueError` of `min`) exactly when the cache is empty and `size <= 0` |
| Caching.AddWithinSize | caching.py:8-11 | with `size >= 1` and at most `size` entries before, the add succeeds and leaves at most `size` entries |
| Caching.AddStores | caching.py:8-11 | after a successful add the key holds `[value, 0]`, even if it was cached before, and keys stay distinct |
| Caching.ReAddToFullCache | caching.py:9-11 | re-adding a cached key to a full cache still evicts: the cache shrinks by one, or the key moves to the end when it was the one evicted |
| Caching.NearestIndex | caching.py:15-25 | picks the first cached key with the least distance to the query; nothing for an empty cache |
| Caching.ScanFindsNearest | caching.py:18-34 | the entry a left-to-right scan with strict `<` keeps is the nearest one, and it alone decides the value returned and the hit counted |
| Caching.CheckEmpty | caching.py:25-26 | an empty cache returns None and stays unchanged |
| Caching.CheckHitIff | caching.py:28-34 | a lookup hits exactly when some cached key is within distance 12 (similarity >= 0.8) |
| Caching.CheckFrame | caching.py:30-34 | a hit adds exactly 1 to the matched entry's hits and changes nothing else; a miss changes nothing |
| Caching.ExactMatchHits | caching.py:18-32 | a query equal to a cached key is a hit that returns that key's own value |
| Caching.AddThenCheck | caching.py:8-32 | a value just added is what the next lookup of the same hash returns |
| Caching.LFUCache.constructor | caching.py:4-6 | a new cache is empty and has the given capacity, 100 by default |
| Caching.LFUCache.RemoveLfu | caching.py:36-39 | deletes the least frequently used entry, or fails on an empty dict leaving it unchanged |
| Caching.LFUCache.AddCache | caching.py:8-11 | the new dict is the one `AddResult` gives, or is unchanged when the source raises |
| Caching.LFUCache.CheckCache | caching.py:13-34 | the loop finds the first nearest key; the result and the new dict are `CheckResult` and `AfterCheck` |
| Caching.CacheManager.constructor | caching.py:43-44 | wraps a fresh empty cache of the given size, 100 by default |
| Caching.CacheManager.Get | caching.py:46-48 | looks up the prompt's Simhash in the cache |
| Caching.CacheManager.Set | caching.py:50-52 | adds the response under the prompt's Simhash |
| Auth.VerifyToken | auth.py:25-33 | gives the claims exactly when decoding succeeds; an expired or invalid token gives None |
| Auth.GetCurrentUser | auth.py:35-64 | 401 for a token that does not decode or an unknown user, 403 for an inactive user, else the looked-up active user |
| Auth.IssuedTokenAdmits | auth.py:50-64 | a decoded token whose `user_id` is the UUID string of an active user in the table admits that user |
| Auth.RejectedTokenIgnoresUsers | auth.py:41-48 | a token that does not decode is refused with 401 whatever the user table holds |
| Auth.RequireAuth | auth.py:66-68 | admits exactly the users `get_current_user` admits; a refusal of `get_current_user` keeps its status |
| Auth.RequireRole | auth.py:70-79 | 403 exactly when the admitted user's role is not allowed; otherwise the same user; an earlier refusal stands |
| Auth.RequireAdmin | auth.py:81-83 | admits only the role "admin", other roles get 403, and an earlier refusal keeps its status |
| Auth.RequireDeveloper | auth.py:85-87 | admits "admin" and "developer"; any other role, such as "user", gets 403; an earlier refusal keeps its status |
| Auth.AdminIsDeveloper | auth.py:81-87 | whoever passes the admin guard passes the developer guard with the same user |

## Left out

- The Simhash algorithm is not modelled. `CacheManager` receives it as a total function from strings to 64-bit values.
- Keys are 64-bit values (`bv64`). That is the range of the Simhash values `CacheManager` passes. `LFUCache` itself would accept any Python integer.
- The float test `1 - d/64.0 >= 0.8` is replaced by the equivalent integer test `d <= 12`. For d in 0..64 the doubles are exact, so the two tests agree.
- `float('inf')`, the initial lowest distance, is modelled by 65. Every distance is at most 64.
- A `ValueError` raised by `min` on an empty dict is modelled as a `false` result with the dict unchanged, not as an exception.
- JWT encoding, decoding and signature checking are not modelled. `generate_token` and the clock are left out too. The outcome of `jwt.decode` is an input.
- The database query in `get_current_user` is modelled as a read-only map from user id to user. User ids are UUID strings (`models.py:26`).
- A numeric `user_id` claim is taken to match no user, because every user id is a string. The 401, 403 and 500 answers are modelled by their status codes only, without the detail text or headers.
- The HTTP framework, the endpoints in `main.py`, the ORM models, logging, and the LLM client are not part of this model.
- The front end's WebSocket provider (`pocketllm-frontend 6/src/contexts/WebSocketContext.jsx`) is not part of this model. That covers its reconnect backoff and its message fan-out, which live in React hooks and timers. The rest of the front end is left out too.
