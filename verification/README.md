# mr_graph in Dafny

mr_graph turns Spotify-style playlist rows into a track co-occurrence graph
and answers "related tracks" queries on it. This project models three parts
of it and proves properties about them:

- **Building the graph** (`builder.dfy`, module `Builder`). Rows are cleaned:
  the ids are stripped, and rows with a blank track or playlist id are skipped.
  - Each track keeps the first non-blank stripped value of `track_name`,
    `track_external_urls`, `release_date` and `artist_name`, plus a
    `playlist_count`.
  - Every pair of distinct tracks that share a playlist becomes an edge. Its
    weight is the number of distinct playlists the two tracks share.
  - The backend calls are modelled as a sequence of operations. `Build` applies
    them to an empty graph.
- **The in-memory graph store** (`graph_store.dfy`, module `GraphStore`).
  - `upsert_track` merges the non-`None` properties into the node, replacing
    existing values.
  - `upsert_connection` adds an undirected edge, or replaces its weight if the
    edge exists.
- **Retrieval** (`retrieval.dfy`, module `Retrieval`).
  - The single-seed query returns the backend's neighbour ids, cut to `k`.
  - The multi-seed query scans the neighbour list of every distinct seed. It
    ranks the union of the non-seed neighbours by:
    1. the number of seeds that list them (more first);
    2. their summed edge weight (more first);
    3. their id (ascending).

    It keeps the first `k`.

Support modules:
- `Text.Strip` is Python's `str.strip()` over the `str.isspace` characters.
- `Lex.Less` is Python's `<` on `str`. `Lex.SortedSet` is `sorted(set(xs))`.
- `Seqs.Dedup` is `list(dict.fromkeys(xs))`.
- `Wrappers` defines `Option` and `Result`.

The backend's neighbour lookup (`backend.get_related_tracks`) is not defined by
any backend class in `mr_graph/backends.py`. It is a parameter of the retrieval
functions: a function from a track id to its full, ordered neighbour list. A
limit returns a prefix of that list. Each retrieval outcome records the backend
calls made, so "nothing is asked before the `ValueError`" is a statement about
that record.

Python dictionaries are modelled as maps plus a sequence that records insertion
order:
- `defaultdict(int)` and `Counter` read a missing key as 0;
- `setdefault` keeps the first value;
- `dict.update` keeps the last value.

## Model

| member | source | states |
|---|---|---|
| Retrieval.GetRelatedTracks | mr_graph/retrieval.py:9-15 | A negative `k` fails with `ValueError` and makes no backend call. Otherwise it makes exactly one call, with `limit=k`. The result lists the ids of the backend's neighbours in the backend's order, with weights dropped, and has length `min(k, n)`, or `n` without `k`. |
| Retrieval.SingleLimitIsPrefix | mr_graph/retrieval.py:14-15 | The answer for `k = n` is the first `n` ids of the answer for `k = None`. |
| Retrieval.GetRelatedTracksForMultiple | mr_graph/retrieval.py:25-38 | A negative `k` fails and makes no call. Otherwise it makes one unlimited backend call per distinct seed, in first-occurrence order (none for an empty seed list). |
| Retrieval.MultipleRanking | mr_graph/retrieval.py:18-63 | The answer names each candidate at most once, and never a seed. It is ordered by (hits desc, weight desc, id asc). It holds exactly `min(k, #candidates)` tracks. Every candidate left out ranks behind every one kept. |
| Retrieval.UnboundedListsEveryCandidate | mr_graph/retrieval.py:51-63 | Without `k`, the answer's set of ids is exactly the set of non-seed tracks that some seed's list names. |
| Retrieval.SameDistinctSeeds | mr_graph/retrieval.py:28-32 | Two seed lists with the same distinct seeds in the same first-occurrence order (such as `["a","a","b"]` and `["a","b"]`) get the same answer from the same backend calls. |
| Retrieval.DuplicateSeedIgnored | mr_graph/retrieval.py:31-32 | Appending a seed that is already present changes neither the answer nor the backend calls. |
| Retrieval.CandidatesOfDedup | mr_graph/retrieval.py:31-32 | De-duplicating the seeds changes neither the reached tracks nor the seed set. |
| Retrieval.CandidateHits | mr_graph/retrieval.py:37-49 | A candidate's hit count is between 1 and the number of distinct seeds. |
| Retrieval.CoverageBounds | mr_graph/retrieval.py:47-49 | A track named by some seed's list is covered at least once, and at most once per seed. |
| Retrieval.VisitWeight | mr_graph/retrieval.py:41-45 | One list entry adds its weight to its track, unless that track is a seed. |
| Retrieval.VisitHits | mr_graph/retrieval.py:41-49 | One list entry adds a hit to its track, unless that track is a seed or was already seen for this seed. |
| Retrieval.ScanNeighborsWeight | mr_graph/retrieval.py:41-45 | Scanning one seed's list adds, to each non-seed track, the weights of all the entries that name it. |
| Retrieval.ScanNeighborsHits | mr_graph/retrieval.py:41-49 | Scanning one seed's list adds one hit to each non-seed track the list names, however often it names it. |
| Retrieval.ScanSeedsWeight | mr_graph/retrieval.py:37-45 | After the outer loop, a non-seed track's weight is its weight summed over every seed's list. |
| Retrieval.ScanSeedsHits | mr_graph/retrieval.py:37-49 | After the outer loop, a non-seed track's hit count is the number of seeds whose list names it. |
| Retrieval.ReachedMembers | mr_graph/retrieval.py:37-41 | A track is reached exactly when some seed's neighbour list names it. |
| Retrieval.TallyKeys | mr_graph/retrieval.py:34-49 | The keys of `aggregated_weights` are exactly the candidates. |
| Retrieval.TallyScore | mr_graph/retrieval.py:54-56 | The tuple built for a candidate carries its coverage and its summed weight. |
| Retrieval.Rank | mr_graph/retrieval.py:54-58 | The sort is a permutation of its input that is strictly ordered by the key. |
| Retrieval.RanksBeforeTotal | mr_graph/retrieval.py:57 | Two candidates with different ids are never tied under the key. |
| Retrieval.RanksBeforeTransitive | mr_graph/retrieval.py:57 | The key order is transitive. |
| Retrieval.RanksBeforeIrreflexive | mr_graph/retrieval.py:57 | The key order is strict. |
| Retrieval.RankedTallyFacts | mr_graph/retrieval.py:54-58 | The sorted list holds every tallied track once, each with its own score, best first. |
| Retrieval.KeptIsTop | mr_graph/retrieval.py:60-63 | `ranked[:k]` keeps the best `min(k, n)` candidates in order. Each dropped candidate ranks behind each kept one. |
| Retrieval.MultipleIsKeptRanking | mr_graph/retrieval.py:28-29 | The early returns for an empty seed list and for an empty tally give the same result as cutting the (empty) ranking. |
| Seqs.Dedup | mr_graph/retrieval.py:31 | `list(dict.fromkeys(xs))` repeats nothing and has the same elements as `xs`. |
| Seqs.DedupKeepsFirstOccurrenceOrder | mr_graph/retrieval.py:31 | De-duplication keeps the order of first occurrences. |
| Seqs.DedupOfRepeat | mr_graph/retrieval.py:31 | Appending an element that is already present does not change the de-duplicated list. |
| Text.Strip | mr_graph/builder.py:28-29 | `strip()` is blank exactly for all-whitespace input. Otherwise the result neither starts nor ends with whitespace, and is no longer than the input. |
| Text.StripTrims | mr_graph/builder.py:28-29 | The result is a slice `s[i..j]` of the input with only whitespace before `i` and after `j`. Together with the non-space ends stated by `Text.Strip`, this determines the result. |
| Builder.UnusableRowsIgnored | mr_graph/builder.py:28-31 | Rows with a blank track id or playlist id leave all three dictionaries unchanged. |
| Builder.Load | mr_graph/builder.py:27-35 | `track_properties` and `track_playlists` are keyed by exactly the usable rows' track ids. `playlist_tracks` is keyed by exactly their playlist ids. |
| Builder.LoadTrackOrder | mr_graph/builder.py:35 | `track_properties` is ordered by the first appearance of each track id. |
| Builder.LoadPlaylistOrder | mr_graph/builder.py:33 | `playlist_tracks` is ordered by the first appearance of each playlist id. |
| Builder.LoadTrackList | mr_graph/builder.py:33 | `playlist_tracks[p]` lists the tracks the usable rows put in `p`, in row order and with repetitions. |
| Builder.LoadPlaylistSet | mr_graph/builder.py:34 | `track_playlists[t]` is the set of playlists the usable rows put `t` in. |
| Builder.Offered | mr_graph/builder.py:68-74 | A value is offered exactly when it is present and not all whitespace. The offered value is the stripped string. |
| Builder.MaybeStore | mr_graph/builder.py:67-75 | It adds the key only when the value is offered. It never overwrites an existing key. A newly added key holds the stripped text. |
| Builder.StoreFieldsAt | mr_graph/builder.py:37-40 | A row's four stores add only the four column keys, and keep every existing key with its value. A missing column key is set from the row's offered value. |
| Builder.StoreFieldsKeep | mr_graph/builder.py:37-40 | Every key the track already had keeps its value through the four stores (`setdefault`). |
| Builder.LoadField | mr_graph/builder.py:35-40 | A track ends up with a column's key exactly when some usable row of the track offers a value. The key then holds the first such value. |
| Builder.FirstValueIsFirst | mr_graph/builder.py:35-40 | A first value is the offer of the earliest row that offers one. There is none exactly when no row offers one. |
| Builder.FirstValueKept | mr_graph/builder.py:37-40 | Later rows never replace a value already stored (`setdefault`). |
| Builder.FinalProps | mr_graph/builder.py:46-47 | Every track gets `playlist_count`, equal to the number of distinct playlists its rows name. Its other properties are the first values. |
| Builder.AsProps | mr_graph/builder.py:51-52 | The properties passed to `upsert_track` contain no `None`, so the store keeps them all. |
| Builder.Orient | mr_graph/builder.py:58 | The oriented pair puts the smaller id first and has the same endpoints. |
| Builder.PairsOfSorted | mr_graph/builder.py:56-57 | `combinations(sorted(set(tracks)), 2)` yields only pairs whose first id is smaller. |
| Builder.CountPairs | mr_graph/builder.py:56-57 | `combinations` yields each ordered pair of distinct members once, and no other pair. |
| Builder.CountPlaylistEdges | mr_graph/builder.py:55-59 | A playlist adds 1 to each ordered pair of distinct tracks in it, however often a track is repeated. |
| Builder.BumpAllCount | mr_graph/builder.py:59 | `edge_counter[edge] += 1` over a list adds, for each edge, the number of times the list contains it. |
| Builder.CountEdgesCount | mr_graph/builder.py:54-59 | After the playlist loop, a pair has gained one count per listed playlist that holds both of its tracks. |
| Builder.EdgeWeight | mr_graph/builder.py:54-59 | The count of `(a, b)` with `a < b` is the number of distinct playlists holding both tracks. Any other pair is never counted. |
| Builder.PlanShape | mr_graph/builder.py:51-64 | The backend sees one `upsert_track` per distinct track, in first-appearance order. Then it sees distinct `upsert_connection` calls with `source < target` and weight at least 1. |
| Builder.ApplyTrackOps | mr_graph/builder.py:51-52 | The track upserts create each node with its properties, and nothing else. |
| Builder.ApplyEdgeOps | mr_graph/builder.py:63-64 | The connection upserts set each counted edge to its count and leave the nodes alone. |
| Builder.BuildNodes | mr_graph/builder.py:46-52 | The graph's nodes are exactly the usable rows' tracks, each holding its final properties. |
| Builder.BuildWeight | mr_graph/builder.py:54-64 | For any two ids, in either order: two different tracks are joined exactly when they share a playlist. The edge weight is the number of distinct shared playlists. There are no self-loops. |
| Builder.BuildAttrs | mr_graph/builder.py:27-52 | In the built graph, each track's `playlist_count` and descriptive columns have the values described above. An id from no usable row is not a node. |
| GraphStore.UpsertTrack | mr_graph/backends.py:132-137 | It adds the node if it is missing, and changes no edge. |
| GraphStore.UpsertTrackAttr | mr_graph/backends.py:132-137 | Read after write: a key supplied with a non-`None` value reads as that value. Every other key, and every other node, reads as before. |
| GraphStore.UpsertNewTrack | mr_graph/backends.py:133-135 | A new node holds exactly the keys whose properties are non-`None`, each with its supplied value. |
| GraphStore.UpsertTrackLastWins | mr_graph/backends.py:137 | Of two upserts of the same track, the later non-`None` value of a key wins. |
| GraphStore.UpsertTrackFrame | mr_graph/backends.py:132-137 | Other nodes and all edges are unchanged. |
| GraphStore.UpsertConnection | mr_graph/backends.py:139-143 | The pair becomes an edge, and missing endpoints become nodes. |
| GraphStore.UpsertConnectionWeight | mr_graph/backends.py:139-143 | Read after write: the pair reads the new weight in either direction. Every other pair reads as before. |
| GraphStore.UpsertConnectionReplaces | mr_graph/backends.py:140-141 | A later upsert of the same pair, in either direction, replaces the weight rather than adding to it. |
| GraphStore.UpsertConnectionNodes | mr_graph/backends.py:143 | Existing nodes keep their attributes. Endpoints added by `add_edge` have no attributes. |
| GraphStore.WeightSymmetric | mr_graph/backends.py:130 | `nx.Graph` is undirected: the weight between `a` and `b` equals the weight between `b` and `a`. |
| Lex.LessTotal | mr_graph/builder.py:58 | Two different strings are ordered one way or the other. |
| Lex.LessTransitive | mr_graph/builder.py:58 | String `<` is transitive. |
| Lex.SortedSet | mr_graph/builder.py:56 | `sorted(set(tracks))` is strictly ascending and has the same members as `tracks`. |

## Left out

- Neo4j backend (`Neo4jGraphBackend`): it is a database driver; only the NetworkX store is modelled.
- CSV reading, the file-existence check and logging: the rows are a parameter (`seq<Row>`), and a missing column is `None`.
- `_safe_float` and the `relevance` property: floating point and its parse errors are not modelled. A track's modelled properties are the four descriptive columns and `playlist_count`.
- The non-string branch of `_maybe_store_field`: `csv.DictReader` only produces strings or `None`.
- `export_graphml`, `initialize`, `close`, `__enter__` and `__exit__`: file output and resource plumbing.
- The command-line interface, the demo script and the package `__init__`.
- `get_related_tracks` on the backend itself: no backend class defines it, so it is a function parameter.
- The hop-bounded, intersection-only multi-seed query (`max_hops`, `get_related_tracks_for_multiple_details`): `tests/test_retrieval.py` imports and expects it, but `mr_graph/retrieval.py` does not define it. The model follows the code, which ranks the union of the seeds' neighbours. On the input of `tests/test_retrieval.py:88-98` the code would return `common`, `only_b`, `only_a`, not just `common`.
- Edge weights and hit counts are unbounded naturals. Python integers do not overflow, so nothing is lost.
- The relative order of ties is not an issue: the sort key ends with the track id, and ids in the tally are unique.
