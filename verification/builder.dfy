/** The aggregation that turns playlist rows into the co-occurrence graph:
    per-track properties, playlist counts, and one edge per pair of tracks
    sharing a playlist, weighted by how many playlists they share. Reading
    the CSV file is not modelled; the rows are given. */
module Builder {
  import opened Wrappers
  import opened Seqs
  import Text
  import Lex
  import GraphStore

  type Attrs = GraphStore.Attrs

  /** One row as `csv.DictReader` yields it: a column is `None` when the row
      lacks it. */
  datatype Row = Row(
    trackId: Option<string>,
    playlistId: Option<string>,
    trackName: Option<string>,
    trackExternalUrls: Option<string>,
    releaseDate: Option<string>,
    artistName: Option<string>)

  /** `(row.get(column) or "").strip()`. */
  function Cleaned(v: Option<string>): string {
    Text.Strip(v.GetOr(""))
  }

  function TrackOf(row: Row): string {
    Cleaned(row.trackId)
  }

  function PlaylistOf(row: Row): string {
    Cleaned(row.playlistId)
  }

  /** A row with a non-blank track id and a non-blank playlist id; every
      other row is skipped. */
  predicate Usable(row: Row) {
    TrackOf(row) != [] && PlaylistOf(row) != []
  }

  /** The descriptive columns copied onto a track. */
  datatype Field = TrackName | TrackExternalUrls | ReleaseDate | ArtistName

  /** The property key a column is stored under. */
  function Key(f: Field): string {
    match f
    case TrackName => "track_name"
    case TrackExternalUrls => "track_external_urls"
    case ReleaseDate => "release_date"
    case ArtistName => "artist_name"
  }

  const FieldKeys: set<string> := {"track_name", "track_external_urls", "release_date", "artist_name"}

  const PlaylistCountKey: string := "playlist_count"

  function Raw(row: Row, f: Field): Option<string> {
    match f
    case TrackName => row.trackName
    case TrackExternalUrls => row.trackExternalUrls
    case ReleaseDate => row.releaseDate
    case ArtistName => row.artistName
  }

  /** The value a column offers: its stripped text, unless it is `None` or
      blank. */
  function Offered(raw: Option<string>): (r: Option<string>)
    ensures r.Some? <==> raw.Some? && !Text.AllSpace(raw.value)
    ensures r.Some? ==> r.value == Text.Strip(raw.value) && r.value != []
  {
    if raw.Some? && Text.Strip(raw.value) != [] then Some(Text.Strip(raw.value)) else None
  }

  /** `_maybe_store_field(target, key, raw_value)` for a CSV value (a string
      or `None`): a stripped non-blank value is stored with `setdefault`, so a
      key already present is never overwritten. */
  function MaybeStore(target: Attrs, key: string, raw: Option<string>): (r: Attrs)
    ensures r.Keys == target.Keys + (if Offered(raw).Some? then {key} else {})
    ensures forall k :: k in target ==> r[k] == target[k]
    ensures key in r && key !in target ==> r[key] == GraphStore.Text(Offered(raw).value)
  {
    var offered := Offered(raw);
    if offered.Some? && key !in target then target[key := GraphStore.Text(offered.value)] else target
  }

  /** The four `_maybe_store_field` calls of one row. */
  function StoreFields(target: Attrs, row: Row): Attrs {
    var a := MaybeStore(target, Key(TrackName), row.trackName);
    var b := MaybeStore(a, Key(TrackExternalUrls), row.trackExternalUrls);
    var c := MaybeStore(b, Key(ReleaseDate), row.releaseDate);
    MaybeStore(c, Key(ArtistName), row.artistName)
  }

  /** The three dictionaries the row loop fills, with the insertion order of
      `playlist_tracks` and of `track_properties`. */
  datatype Loaded = Loaded(
    playlistTracks: map<string, seq<string>>,
    playlistOrder: seq<string>,
    trackProps: map<string, Attrs>,
    trackOrder: seq<string>,
    trackPlaylists: map<string, set<string>>)

  const Start: Loaded := Loaded(map[], [], map[], [], map[])

  /** One iteration of the row loop. */
  function Step(st: Loaded, row: Row): Loaded {
    if !Usable(row) then st
    else
      var t, p := TrackOf(row), PlaylistOf(row);
      var tracks := if p in st.playlistTracks then st.playlistTracks[p] else [];
      var playlists := if t in st.trackPlaylists then st.trackPlaylists[t] else {};
      var props := if t in st.trackProps then st.trackProps[t] else map[];
      Loaded(
        st.playlistTracks[p := tracks + [t]],
        if p in st.playlistTracks then st.playlistOrder else st.playlistOrder + [p],
        st.trackProps[t := StoreFields(props, row)],
        if t in st.trackProps then st.trackOrder else st.trackOrder + [t],
        st.trackPlaylists[t := playlists + {p}])
  }

  // ---------------------------------------------------------------------
  // Reference definitions over the rows.

  /** The track ids of the usable rows, in row order. */
  function TrackIds(rows: seq<Row>): seq<string> {
    if |rows| == 0 then []
    else
      var last := rows[|rows| - 1];
      TrackIds(rows[..|rows| - 1]) + if Usable(last) then [TrackOf(last)] else []
  }

  /** The playlist ids of the usable rows, in row order. */
  function PlaylistIds(rows: seq<Row>): seq<string> {
    if |rows| == 0 then []
    else
      var last := rows[|rows| - 1];
      PlaylistIds(rows[..|rows| - 1]) + if Usable(last) then [PlaylistOf(last)] else []
  }

  /** The playlists the usable rows put track `t` in. */
  function PlaylistsOf(rows: seq<Row>, t: string): set<string> {
    if |rows| == 0 then {}
    else
      var last := rows[|rows| - 1];
      PlaylistsOf(rows[..|rows| - 1], t) + if Usable(last) && TrackOf(last) == t then {PlaylistOf(last)} else {}
  }

  /** The tracks the usable rows put in playlist `p`, in row order,
      repetitions included. */
  function TracksOf(rows: seq<Row>, p: string): seq<string> {
    if |rows| == 0 then []
    else
      var last := rows[|rows| - 1];
      TracksOf(rows[..|rows| - 1], p) + if Usable(last) && PlaylistOf(last) == p then [TrackOf(last)] else []
  }

  /** What row `row` offers column `f` of track `t`: the stripped
      non-blank value when the row is usable and about `t`. */
  function Offer(row: Row, t: string, f: Field): Option<string> {
    if Usable(row) && TrackOf(row) == t then Offered(Raw(row, f)) else None
  }

  /** The first value a usable row of track `t` offers for column `f`. */
  function FirstValue(rows: seq<Row>, t: string, f: Field): Option<string> {
    if |rows| == 0 then None
    else
      var earlier := FirstValue(rows[..|rows| - 1], t, f);
      if earlier.Some? then earlier else Offer(rows[|rows| - 1], t, f)
  }

  /** The usable rows, in order. */
  function UsableRows(rows: seq<Row>): (r: seq<Row>)
    ensures forall i :: 0 <= i < |r| ==> Usable(r[i])
  {
    if |rows| == 0 then []
    else
      var last := rows[|rows| - 1];
      UsableRows(rows[..|rows| - 1]) + if Usable(last) then [last] else []
  }

  // ---------------------------------------------------------------------
  // The row loop.

  /** The row loop over `rows`. Its dictionaries are keyed by exactly the
      ids of the usable rows. */
  function Load(rows: seq<Row>): (st: Loaded)
    ensures st.trackProps.Keys == Elems(TrackIds(rows))
    ensures st.trackPlaylists.Keys == Elems(TrackIds(rows))
    ensures st.playlistTracks.Keys == Elems(PlaylistIds(rows))
    decreases |rows|
  {
    if |rows| == 0 then Start else Step(Load(rows[..|rows| - 1]), rows[|rows| - 1])
  }

  /** The insertion order of `track_properties` is the usable rows' track
      ids with repetitions dropped, in order of first appearance. */
  lemma {:induction false} LoadTrackOrder(rows: seq<Row>)
    ensures Load(rows).trackOrder == Dedup(TrackIds(rows))
    decreases |rows|
  {
    if |rows| > 0 {
      var init, last := rows[..|rows| - 1], rows[|rows| - 1];
      LoadTrackOrder(init);
      var ids := TrackIds(init);
      if Usable(last) {
        var t := TrackOf(last);
        assert (ids + [t])[..|ids|] == ids;
        assert t in Load(init).trackProps <==> t in Dedup(ids);
      } else {
        assert TrackIds(rows) == ids;
      }
    }
  }

  /** The insertion order of `playlist_tracks` is the usable rows' playlist
      ids with repetitions dropped, in order of first appearance. */
  lemma {:induction false} LoadPlaylistOrder(rows: seq<Row>)
    ensures Load(rows).playlistOrder == Dedup(PlaylistIds(rows))
    decreases |rows|
  {
    if |rows| > 0 {
      var init, last := rows[..|rows| - 1], rows[|rows| - 1];
      LoadPlaylistOrder(init);
      var ids := PlaylistIds(init);
      if Usable(last) {
        var p := PlaylistOf(last);
        assert (ids + [p])[..|ids|] == ids;
        assert p in Load(init).playlistTracks <==> p in Dedup(ids);
      } else {
        assert PlaylistIds(rows) == ids;
      }
    }
  }

  /** `track_playlists[t]`, reading a missing track as the empty set. */
  function PlaylistSet(st: Loaded, t: string): set<string> {
    if t in st.trackPlaylists then st.trackPlaylists[t] else {}
  }

  /** `playlist_tracks[p]`, reading a missing playlist as the empty list. */
  function TrackList(st: Loaded, p: string): seq<string> {
    if p in st.playlistTracks then st.playlistTracks[p] else []
  }

  /** `track_playlists[t]` ends up as the set of playlists the usable rows
      put `t` in. */
  lemma {:induction false} LoadPlaylistSet(rows: seq<Row>, t: string)
    ensures PlaylistSet(Load(rows), t) == PlaylistsOf(rows, t)
    decreases |rows|
  {
    if |rows| > 0 {
      LoadPlaylistSet(rows[..|rows| - 1], t);
    }
  }

  /** `playlist_tracks[p]` ends up as the tracks the usable rows put in `p`,
      in row order. */
  lemma {:induction false} LoadTrackList(rows: seq<Row>, p: string)
    ensures TrackList(Load(rows), p) == TracksOf(rows, p)
    decreases |rows|
  {
    if |rows| > 0 {
      LoadTrackList(rows[..|rows| - 1], p);
    }
  }

  /** The four stores of one row keep every key the track already had, with
      its value. */
  lemma StoreFieldsKeep(target: Attrs, row: Row)
    ensures var r := StoreFields(target, row);
            forall k :: k in target ==> k in r && r[k] == target[k]
  {
  }

  /** The four stores of one row touch the four column keys only; a column
      key is kept when present, and otherwise set from the row's offered
      value. */
  lemma StoreFieldsAt(target: Attrs, row: Row, f: Field)
    ensures var r := StoreFields(target, row);
            && target.Keys <= r.Keys <= target.Keys + FieldKeys
            && (forall k :: k in target ==> r[k] == target[k])
            && (Key(f) in r <==> Key(f) in target || Offered(Raw(row, f)).Some?)
            && (Key(f) in target ==> r[Key(f)] == target[Key(f)])
            && (Key(f) !in target && Offered(Raw(row, f)).Some? ==>
                  r[Key(f)] == GraphStore.Text(Offered(Raw(row, f)).value))
  {
    StoreFieldsKeep(target, row);
  }

  /** A column can only have a first value for a track some usable row
      names. */
  lemma {:induction false} FirstValueNeedsTrack(rows: seq<Row>, t: string, f: Field)
    requires FirstValue(rows, t, f).Some?
    ensures t in TrackIds(rows)
    decreases |rows|
  {
    var init := rows[..|rows| - 1];
    if FirstValue(init, t, f).Some? {
      FirstValueNeedsTrack(init, t, f);
    }
  }

  /** After the row loop a track holds, for each descriptive column, the
      first non-blank stripped value its usable rows offer, and nothing when
      none does; it holds no other property. */
  lemma {:induction false} LoadField(rows: seq<Row>, t: string, f: Field)
    requires t in Load(rows).trackProps
    ensures var a := Load(rows).trackProps[t];
            && a.Keys <= FieldKeys
            && (Key(f) in a <==> FirstValue(rows, t, f).Some?)
            && (Key(f) in a ==> a[Key(f)] == GraphStore.Text(FirstValue(rows, t, f).value))
    decreases |rows|
  {
    var init, last := rows[..|rows| - 1], rows[|rows| - 1];
    var prev := Load(init);
    if Usable(last) && TrackOf(last) == t {
      if t in prev.trackProps {
        LoadField(init, t, f);
        StoreFieldsAt(prev.trackProps[t], last, f);
      } else {
        if FirstValue(init, t, f).Some? {
          FirstValueNeedsTrack(init, t, f);
        }
        StoreFieldsAt(map[], last, f);
      }
    } else {
      LoadField(init, t, f);
    }
  }

  /** The first entry of `s` that is not `None`, if any. */
  function FirstSome<T>(s: seq<Option<T>>): Option<T> {
    if |s| == 0 then None
    else
      var earlier := FirstSome(s[..|s| - 1]);
      if earlier.Some? then earlier else s[|s| - 1]
  }

  lemma {:induction false} FirstSomeNone<T>(s: seq<Option<T>>)
    ensures FirstSome(s).None? <==> forall i :: 0 <= i < |s| ==> s[i].None?
    decreases |s|
  {
    if |s| > 0 {
      var init := s[..|s| - 1];
      FirstSomeNone(init);
      assert forall i :: 0 <= i < |init| ==> init[i] == s[i];
    }
  }

  lemma {:induction false} FirstSomeSome<T>(s: seq<Option<T>>)
    requires FirstSome(s).Some?
    ensures exists i :: && 0 <= i < |s| && s[i] == FirstSome(s)
                        && forall j :: 0 <= j < i ==> s[j].None?
    decreases |s|
  {
    var init := s[..|s| - 1];
    FirstSomeNone(init);
    if FirstSome(init).Some? {
      FirstSomeSome(init);
      var i :| 0 <= i < |init| && init[i] == FirstSome(init) && forall j :: 0 <= j < i ==> init[j].None?;
      assert forall j :: 0 <= j <= i ==> init[j] == s[j];
    } else {
      assert forall j :: 0 <= j < |init| ==> init[j] == s[j];
    }
  }

  /** What each row offers column `f` of track `t`. */
  function Offers(rows: seq<Row>, t: string, f: Field): (r: seq<Option<string>>)
    ensures |r| == |rows|
    ensures forall i :: 0 <= i < |rows| ==> r[i] == Offer(rows[i], t, f)
  {
    seq(|rows|, i requires 0 <= i < |rows| => Offer(rows[i], t, f))
  }

  lemma {:induction false} FirstValueOfOffers(rows: seq<Row>, t: string, f: Field)
    ensures FirstValue(rows, t, f) == FirstSome(Offers(rows, t, f))
    decreases |rows|
  {
    if |rows| > 0 {
      var init := rows[..|rows| - 1];
      FirstValueOfOffers(init, t, f);
      assert Offers(rows, t, f)[..|rows| - 1] == Offers(init, t, f);
    }
  }

  /** A first value is the offer of the first row that offers one; there
      is none exactly when no row offers one. */
  lemma FirstValueIsFirst(rows: seq<Row>, t: string, f: Field)
    ensures FirstValue(rows, t, f).None? <==> forall i :: 0 <= i < |rows| ==> Offer(rows[i], t, f).None?
    ensures FirstValue(rows, t, f).Some? ==>
              exists i :: && 0 <= i < |rows| && Offer(rows[i], t, f) == FirstValue(rows, t, f)
                          && forall j :: 0 <= j < i ==> Offer(rows[j], t, f).None?
  {
    FirstValueOfOffers(rows, t, f);
    FirstSomeNone(Offers(rows, t, f));
    if FirstValue(rows, t, f).Some? {
      FirstSomeSome(Offers(rows, t, f));
    }
  }

  /** Later rows never replace a value already found. */
  lemma {:induction false} FirstValueKept(rows: seq<Row>, more: seq<Row>, t: string, f: Field)
    requires FirstValue(rows, t, f).Some?
    ensures FirstValue(rows + more, t, f) == FirstValue(rows, t, f)
    decreases |more|
  {
    if |more| > 0 {
      var init := more[..|more| - 1];
      assert (rows + more)[..|rows + more| - 1] == rows + init;
      FirstValueKept(rows, init, t, f);
    } else {
      assert rows + more == rows;
    }
  }

  /** Rows with a blank track id or playlist id contribute nothing: the
      loop over all rows ends where the loop over the usable ones does. */
  lemma {:induction false} UnusableRowsIgnored(rows: seq<Row>)
    ensures Load(rows) == Load(UsableRows(rows))
    decreases |rows|
  {
    if |rows| > 0 {
      var init, last := rows[..|rows| - 1], rows[|rows| - 1];
      UnusableRowsIgnored(init);
      var u := UsableRows(init);
      if Usable(last) {
        assert (u + [last])[..|u|] == u;
      } else {
        assert UsableRows(rows) == u;
      }
    }
  }

  // ---------------------------------------------------------------------
  // Playlist counts and the node upserts.

  /** The loop over `track_playlists` that sets `playlist_count`, through
      `setdefault`, on every track's properties. */
  function Finish(st: Loaded): map<string, Attrs> {
    map t | t in st.trackProps.Keys + st.trackPlaylists.Keys ::
      (if t in st.trackProps then st.trackProps[t] else map[])
      + (if t in st.trackPlaylists then map[PlaylistCountKey := GraphStore.Int(|st.trackPlaylists[t]|)] else map[])
  }

  /** A track's final properties: the first value of each descriptive column
      that has one, and `playlist_count`, the number of distinct playlists
      the usable rows put it in. */
  lemma FinalProps(rows: seq<Row>, t: string, f: Field)
    ensures t in Finish(Load(rows)) <==> t in TrackIds(rows)
    ensures t in Finish(Load(rows)) ==>
              var a := Finish(Load(rows))[t];
              && a.Keys <= FieldKeys + {PlaylistCountKey}
              && PlaylistCountKey in a
              && a[PlaylistCountKey] == GraphStore.Int(|PlaylistsOf(rows, t)|)
              && (Key(f) in a <==> FirstValue(rows, t, f).Some?)
              && (Key(f) in a ==> a[Key(f)] == GraphStore.Text(FirstValue(rows, t, f).value))
  {
    var st := Load(rows);
    if t in st.trackProps {
      LoadField(rows, t, f);
      LoadPlaylistSet(rows, t);
      assert Key(f) != PlaylistCountKey;
    }
  }

  /** A property map as keyword arguments: none of them `None`. */
  function AsProps(a: Attrs): (r: GraphStore.Props)
    ensures GraphStore.Present(r) == a
  {
    map k | k in a :: Some(a[k])
  }

  /** One `upsert_track` call per track of `order`, in that order, each
      passing the track's property map as keyword arguments. */
  function TrackOps(order: seq<string>, props: map<string, Attrs>): (ops: seq<GraphStore.Op>)
    requires forall t :: t in order ==> t in props
    ensures |ops| == |order|
    ensures forall i :: 0 <= i < |ops| ==> ops[i] == GraphStore.UpsertTrackOp(order[i], AsProps(props[order[i]]))
  {
    seq(|order|, i requires 0 <= i < |order| => GraphStore.UpsertTrackOp(order[i], AsProps(props[order[i]])))
  }

  // ---------------------------------------------------------------------
  // Co-occurrence edges.

  type Pair = (string, string)

  /** `(x, y)` for each `y` of `rest`, in order. */
  function PairsWith(x: string, rest: seq<string>): (r: seq<Pair>)
    ensures |r| == |rest|
    ensures forall i :: 0 <= i < |rest| ==> r[i] == (x, rest[i])
  {
    seq(|rest|, i requires 0 <= i < |rest| => (x, rest[i]))
  }

  /** `combinations(u, 2)`: every pair `(u[i], u[j])` with `i < j`, ordered
      by `i`, then by `j`. */
  function Pairs(u: seq<string>): seq<Pair> {
    if |u| == 0 then [] else PairsWith(u[0], u[1..]) + Pairs(u[1..])
  }

  /** `(left, right) if left < right else (right, left)`. */
  function Orient(p: Pair): (r: Pair)
    ensures Lex.Less(r.0, r.1) || p.0 == p.1
    ensures {r.0, r.1} == {p.0, p.1}
  {
    if Lex.Less(p.0, p.1) then p
    else
      assert p.0 != p.1 ==> Lex.Less(p.1, p.0) by {
        if p.0 != p.1 {
          Lex.LessTotal(p.0, p.1);
        }
      }
      (p.1, p.0)
  }

  function Oriented(ps: seq<Pair>): (r: seq<Pair>)
    ensures |r| == |ps|
    ensures forall i :: 0 <= i < |ps| ==> r[i] == Orient(ps[i])
  {
    seq(|ps|, i requires 0 <= i < |ps| => Orient(ps[i]))
  }

  /** The `Counter` of edges with its key insertion order. */
  datatype Counter = Counter(counts: map<Pair, nat>, order: seq<Pair>)

  /** Every key is listed once, is an ordered pair of different tracks, and
      was counted at least once. */
  ghost predicate CounterOk(c: Counter) {
    && Distinct(c.order)
    && (forall e :: e in c.order <==> e in c.counts)
    && (forall e :: e in c.counts ==> c.counts[e] >= 1 && Lex.Less(e.0, e.1))
  }

  /** A `Counter` read: a missing key counts 0. */
  function CountOf(c: Counter, e: Pair): nat {
    if e in c.counts then c.counts[e] else 0
  }

  /** `edge_counter[edge] += 1`. */
  function Bump(c: Counter, e: Pair): (r: Counter)
    requires CounterOk(c) && Lex.Less(e.0, e.1)
    ensures CounterOk(r)
  {
    Counter(c.counts[e := CountOf(c, e) + 1], if e in c.counts then c.order else c.order + [e])
  }

  /** Counts each edge of `es`, first to last. */
  function BumpAll(c: Counter, es: seq<Pair>): (r: Counter)
    requires CounterOk(c) && forall i :: 0 <= i < |es| ==> Lex.Less(es[i].0, es[i].1)
    ensures CounterOk(r)
    decreases |es|
  {
    if |es| == 0 then c else BumpAll(Bump(c, es[0]), es[1..])
  }

  /** Counting a sequence of edges adds, to each edge, how often it occurs. */
  lemma {:induction false} BumpAllCount(c: Counter, es: seq<Pair>, e: Pair)
    requires CounterOk(c) && forall i :: 0 <= i < |es| ==> Lex.Less(es[i].0, es[i].1)
    ensures CountOf(BumpAll(c, es), e) == CountOf(c, e) + Count(es, e)
    decreases |es|
  {
    if |es| > 0 {
      BumpAllCount(Bump(c, es[0]), es[1..], e);
    }
  }

  /** Pairs of a strictly sorted sequence are already in order, so
      orienting them changes nothing. */
  lemma {:induction false} PairsOfSorted(u: seq<string>)
    requires Lex.StrictlySorted(u)
    ensures forall i :: 0 <= i < |Pairs(u)| ==> Lex.Less(Pairs(u)[i].0, Pairs(u)[i].1)
    ensures Oriented(Pairs(u)) == Pairs(u)
    decreases |u|
  {
    if |u| > 0 {
      PairsOfSorted(u[1..]);
      var ps := Pairs(u);
      forall i | 0 <= i < |ps|
        ensures Lex.Less(ps[i].0, ps[i].1)
      {
        if i >= |u| - 1 {
          assert ps[i] == Pairs(u[1..])[i - (|u| - 1)];
        }
      }
    }
  }

  /** How often `(x, b)` occurs among `x` paired with a repeat-free `rest`. */
  lemma {:induction false} CountPairsWith(x: string, rest: seq<string>, e: Pair)
    requires Distinct(rest)
    ensures Count(PairsWith(x, rest), e) == if e.0 == x && e.1 in rest then 1 else 0
    decreases |rest|
  {
    if |rest| > 0 {
      assert PairsWith(x, rest)[1..] == PairsWith(x, rest[1..]);
      CountPairsWith(x, rest[1..], e);
      assert rest == [rest[0]] + rest[1..];
    }
  }

  /** `combinations` of a strictly sorted sequence yields each ordered pair
      of its elements exactly once, and nothing else. */
  lemma {:induction false} CountPairs(u: seq<string>, e: Pair)
    requires Lex.StrictlySorted(u)
    ensures Count(Pairs(u), e) == if e.0 in u && e.1 in u && Lex.Less(e.0, e.1) then 1 else 0
    decreases |u|
  {
    if |u| > 0 {
      var x, rest := u[0], u[1..];
      Lex.SortedIsDistinct(u);
      CountAppend(PairsWith(x, rest), Pairs(rest), e);
      CountPairsWith(x, rest, e);
      CountPairs(rest, e);
      assert u == [x] + rest;
      assert forall y :: y in rest ==> Lex.Less(x, y);
      Lex.LessIrreflexive(x);
      if e.0 == x && e.1 in rest {
        assert x !in rest;
      }
      if e.0 != x && e.0 in u && e.1 == x && Lex.Less(e.0, e.1) {
        Lex.LessAsymmetric(x, e.0);
      }
    }
  }

  /** The edges one playlist contributes: the pairs of
      `sorted(set(tracks))`, each oriented. */
  function PlaylistEdges(tracks: seq<string>): (r: seq<Pair>)
    ensures forall i :: 0 <= i < |r| ==> Lex.Less(r[i].0, r[i].1)
  {
    var u := Lex.SortedSet(tracks);
    PairsOfSorted(u);
    Oriented(Pairs(u))
  }

  /** A playlist contributes each ordered pair of its distinct tracks once,
      however often a track is repeated in it. */
  lemma CountPlaylistEdges(tracks: seq<string>, e: Pair)
    ensures Count(PlaylistEdges(tracks), e) ==
            if e.0 in tracks && e.1 in tracks && Lex.Less(e.0, e.1) then 1 else 0
  {
    var u := Lex.SortedSet(tracks);
    PairsOfSorted(u);
    CountPairs(u, e);
  }

  /** The loop over `playlist_tracks.values()` for the playlists `ids`. */
  function CountEdges(c: Counter, st: Loaded, ids: seq<string>): (r: Counter)
    requires CounterOk(c)
    ensures CounterOk(r)
    decreases |ids|
  {
    if |ids| == 0 then c else CountEdges(BumpAll(c, PlaylistEdges(TrackList(st, ids[0]))), st, ids[1..])
  }

  /** After the loop an ordered pair has gained one count per playlist of
      `ids` holding both its tracks (`shared` names exactly those). */
  lemma {:induction false} CountEdgesCount(c: Counter, st: Loaded, ids: seq<string>, e: Pair, shared: set<string>)
    requires CounterOk(c)
    requires forall p :: p in ids ==> (p in shared <==> e.0 in TrackList(st, p) && e.1 in TrackList(st, p))
    ensures CountOf(CountEdges(c, st, ids), e) ==
            CountOf(c, e) + if Lex.Less(e.0, e.1) then CountIn(ids, shared) else 0
    decreases |ids|
  {
    if |ids| > 0 {
      var edges := PlaylistEdges(TrackList(st, ids[0]));
      BumpAllCount(c, edges, e);
      CountPlaylistEdges(TrackList(st, ids[0]), e);
      assert ids[0] in ids;
      CountEdgesCount(BumpAll(c, edges), st, ids[1..], e, shared);
    }
  }

  /** `edge_counter` once every playlist has been counted. */
  function EdgeCounter(st: Loaded): (c: Counter)
    ensures CounterOk(c)
  {
    CountEdges(Counter(map[], []), st, st.playlistOrder)
  }

  /** A track is in a playlist's list exactly when the playlist is among the
      track's playlists. */
  lemma {:induction false} TracksOfMember(rows: seq<Row>, p: string, t: string)
    ensures t in TracksOf(rows, p) <==> p in PlaylistsOf(rows, t)
    decreases |rows|
  {
    if |rows| > 0 {
      TracksOfMember(rows[..|rows| - 1], p, t);
    }
  }

  /** A track's playlists are playlists of usable rows. */
  lemma {:induction false} PlaylistsOfWithin(rows: seq<Row>, t: string)
    ensures PlaylistsOf(rows, t) <= Elems(PlaylistIds(rows))
    decreases |rows|
  {
    if |rows| > 0 {
      PlaylistsOfWithin(rows[..|rows| - 1], t);
    }
  }

  /** A playlist holds both tracks exactly when it is one of the playlists
      of each. */
  lemma SharedPlaylist(rows: seq<Row>, a: string, b: string, p: string)
    ensures p in PlaylistsOf(rows, a) * PlaylistsOf(rows, b) <==>
            a in TrackList(Load(rows), p) && b in TrackList(Load(rows), p)
  {
    LoadTrackList(rows, p);
    TracksOfMember(rows, p, a);
    TracksOfMember(rows, p, b);
  }

  /** The weight counted for an ordered pair is the number of entries of
      the playlist order that hold both tracks. */
  lemma CountedShared(rows: seq<Row>, a: string, b: string)
    ensures var st := Load(rows);
            CountOf(EdgeCounter(st), (a, b)) ==
            if Lex.Less(a, b) then CountIn(st.playlistOrder, PlaylistsOf(rows, a) * PlaylistsOf(rows, b)) else 0
  {
    var st := Load(rows);
    var shared := PlaylistsOf(rows, a) * PlaylistsOf(rows, b);
    forall p | p in st.playlistOrder
      ensures p in shared <==> a in TrackList(st, p) && b in TrackList(st, p)
    {
      SharedPlaylist(rows, a, b, p);
    }
    CountEdgesCount(Counter(map[], []), st, st.playlistOrder, (a, b), shared);
  }

  /** Every playlist shared by two tracks is listed once in the playlist
      order. */
  lemma SharedListedOnce(rows: seq<Row>, a: string, b: string)
    ensures var shared := PlaylistsOf(rows, a) * PlaylistsOf(rows, b);
            CountIn(Load(rows).playlistOrder, shared) == |shared|
  {
    var order := Load(rows).playlistOrder;
    var shared := PlaylistsOf(rows, a) * PlaylistsOf(rows, b);
    LoadPlaylistOrder(rows);
    PlaylistsOfWithin(rows, a);
    assert forall p :: p in shared ==> p in order;
    CountInCovered(order, shared);
  }

  /** The weight counted for an ordered pair `(a, b)`, `a < b`, is the
      number of distinct playlists holding both tracks; any other pair,
      `(a, a)` included, is never counted. */
  lemma EdgeWeight(rows: seq<Row>, a: string, b: string)
    ensures CountOf(EdgeCounter(Load(rows)), (a, b)) ==
            if Lex.Less(a, b) then |PlaylistsOf(rows, a) * PlaylistsOf(rows, b)| else 0
  {
    CountedShared(rows, a, b);
    SharedListedOnce(rows, a, b);
  }

  // ---------------------------------------------------------------------
  // The backend calls.

  /** `backend.upsert_connection(source_id, target_id, weight)` for each
      edge of `order`, with its count as the weight. */
  function EdgeOpsOf(c: Counter, order: seq<Pair>): (ops: seq<GraphStore.Op>)
    requires forall e :: e in order ==> e in c.counts
    ensures |ops| == |order|
    ensures forall i :: 0 <= i < |ops| ==>
              ops[i] == GraphStore.UpsertConnectionOp(order[i].0, order[i].1, c.counts[order[i]])
  {
    seq(|order|, i requires 0 <= i < |order| =>
      GraphStore.UpsertConnectionOp(order[i].0, order[i].1, c.counts[order[i]]))
  }

  /** One `upsert_connection` call per entry of `edge_counter`, in insertion
      order, with the entry's pair as endpoints and its count as weight. */
  function EdgeOps(c: Counter): seq<GraphStore.Op>
    requires CounterOk(c)
  {
    EdgeOpsOf(c, c.order)
  }

  /** Every backend call `build_track_graph_from_csv` makes for `rows`, in
      order: one track upsert per track, then one connection upsert per
      counted edge. */
  function Plan(rows: seq<Row>): seq<GraphStore.Op> {
    var st := Load(rows);
    LoadTrackOrder(rows);
    assert forall t :: t in st.trackOrder ==> t in Finish(st);
    TrackOps(st.trackOrder, Finish(st)) + EdgeOps(EdgeCounter(st))
  }

  /** The graph the calls build in an empty `NetworkXGraphBackend`. */
  function Build(rows: seq<Row>): GraphStore.Graph {
    GraphStore.ApplyAll(GraphStore.Empty, Plan(rows))
  }

  /** Track upserts for a repeat-free `order` followed by the upserts of a
      counter's edges: the shape of every call sequence the builder makes. */
  lemma OpsShape(order: seq<string>, props: map<string, Attrs>, c: Counter)
    requires Distinct(order) && (forall t :: t in order ==> t in props) && CounterOk(c)
    ensures var ops, n := TrackOps(order, props) + EdgeOps(c), |order|;
            && n <= |ops|
            && (forall i :: 0 <= i < n ==> ops[i].UpsertTrackOp? && ops[i].id == order[i])
            && (forall i, j :: 0 <= i < j < n ==> ops[i].id != ops[j].id)
            && (forall t :: t in order <==> exists i :: 0 <= i < n && ops[i].id == t)
            && (forall i :: n <= i < |ops| ==>
                  && ops[i].UpsertConnectionOp?
                  && Lex.Less(ops[i].source, ops[i].target)
                  && ops[i].weight >= 1)
            && (forall i, j :: n <= i < j < |ops| ==>
                  (ops[i].source, ops[i].target) != (ops[j].source, ops[j].target))
  {
    var ops, n := TrackOps(order, props) + EdgeOps(c), |order|;
    assert forall i :: 0 <= i < n ==> ops[i] == TrackOps(order, props)[i];
    assert forall i :: n <= i < |ops| ==> ops[i] == EdgeOps(c)[i - n];
    forall t | t in order
      ensures exists i :: 0 <= i < n && ops[i].id == t
    {
      var i :| 0 <= i < n && order[i] == t;
      assert ops[i].id == t;
    }
  }

  /** The calls for `rows`: first one track upsert per track of a usable
      row, each track once, in order of first appearance; then only
      connection upserts, one per counted edge, each edge once, each as an
      ordered pair of different tracks with a weight of at least 1. */
  lemma PlanShape(rows: seq<Row>)
    ensures var ops, order := Plan(rows), Dedup(TrackIds(rows));
            && |order| <= |ops|
            && (forall i :: 0 <= i < |order| ==> ops[i].UpsertTrackOp? && ops[i].id == order[i])
            && (forall i, j :: 0 <= i < j < |order| ==> ops[i].id != ops[j].id)
            && (forall t :: t in TrackIds(rows) <==> exists i :: 0 <= i < |order| && ops[i].id == t)
            && (forall i :: |order| <= i < |ops| ==>
                  && ops[i].UpsertConnectionOp?
                  && Lex.Less(ops[i].source, ops[i].target)
                  && ops[i].weight >= 1)
            && (forall i, j :: |order| <= i < j < |ops| ==>
                  (ops[i].source, ops[i].target) != (ops[j].source, ops[j].target))
  {
    var st := Load(rows);
    LoadTrackOrder(rows);
    assert forall t :: t in st.trackOrder ==> t in Finish(st);
    OpsShape(st.trackOrder, Finish(st), EdgeCounter(st));
    assert forall t :: t in TrackIds(rows) <==> t in st.trackOrder;
  }

  // ---------------------------------------------------------------------
  // The graph the calls build.

  /** Upserting repeat-free new tracks creates exactly those nodes, each
      with its properties, and changes nothing else. */
  lemma ApplyTrackOps(g: GraphStore.Graph, order: seq<string>, props: map<string, Attrs>)
    requires Distinct(order) && forall t :: t in order ==> t in props && t !in g.nodes
    ensures var r := GraphStore.ApplyAll(g, TrackOps(order, props));
            && r.edges == g.edges
            && r.nodes.Keys == g.nodes.Keys + Elems(order)
            && (forall t :: t in order ==> r.nodes[t] == props[t])
            && (forall t :: t in g.nodes ==> r.nodes[t] == g.nodes[t])
  {
    TrackOpsShape(g, order, props);
    TrackOpsValues(g, order, props);
  }

  /** The track upserts add exactly the nodes of `order` and no edge. */
  lemma {:induction false} TrackOpsShape(g: GraphStore.Graph, order: seq<string>, props: map<string, Attrs>)
    requires forall t :: t in order ==> t in props
    ensures var r := GraphStore.ApplyAll(g, TrackOps(order, props));
            && r.edges == g.edges
            && r.nodes.Keys == g.nodes.Keys + Elems(order)
    decreases |order|
  {
    if |order| > 0 {
      var t := order[0];
      var g1 := GraphStore.UpsertTrack(g, t, AsProps(props[t]));
      assert TrackOps(order, props)[1..] == TrackOps(order[1..], props);
      assert Elems(order) == {t} + Elems(order[1..]);
      TrackOpsShape(g1, order[1..], props);
    }
  }

  /** The track upserts give each new track its properties and leave the
      nodes already present alone. */
  lemma {:induction false} TrackOpsValues(g: GraphStore.Graph, order: seq<string>, props: map<string, Attrs>)
    requires Distinct(order) && forall t :: t in order ==> t in props && t !in g.nodes
    ensures var r := GraphStore.ApplyAll(g, TrackOps(order, props));
            && (forall t :: t in order ==> t in r.nodes && r.nodes[t] == props[t])
            && (forall t :: t in g.nodes ==> t in r.nodes && r.nodes[t] == g.nodes[t])
    decreases |order|
  {
    if |order| > 0 {
      var t := order[0];
      var g1 := GraphStore.UpsertTrack(g, t, AsProps(props[t]));
      assert g1.nodes == g.nodes[t := props[t]];
      assert TrackOps(order, props)[1..] == TrackOps(order[1..], props);
      assert Distinct(order[1..]);
      assert order == [t] + order[1..];
      TrackOpsValues(g1, order[1..], props);
    }
  }

  /** Ordered pairs of different tracks name different unordered edges. */
  lemma EdgeKeysDiffer(e: Pair, d: Pair)
    requires Lex.Less(e.0, e.1) && Lex.Less(d.0, d.1) && e != d
    ensures {e.0, e.1} != {d.0, d.1}
  {
    if {e.0, e.1} == {d.0, d.1} {
      assert e.0 in {d.0, d.1} && e.1 in {d.0, d.1};
      Lex.LessIrreflexive(e.0);
      Lex.LessAsymmetric(e.0, e.1);
    }
  }

  /** An oriented pair is the only orientation of its unordered edge that
      is ordered or a loop. */
  lemma SameEdge(e: Pair, x: string, y: string)
    requires Lex.Less(e.0, e.1) && (Lex.Less(x, y) || x == y)
    requires {x, y} == {e.0, e.1}
    ensures (x, y) == e
  {
    assert x in {e.0, e.1} && y in {e.0, e.1};
    assert e.0 in {x, y} && e.1 in {x, y};
    Lex.LessIrreflexive(e.0);
    if x != e.0 {
      Lex.LessAsymmetric(e.0, e.1);
    }
  }

  /** Upserting repeat-free ordered edges between existing nodes, none of
      them present yet, leaves the nodes alone and gives each of those edges
      its count; other pairs read as before. */
  lemma {:induction false} ApplyEdgeOps(g: GraphStore.Graph, c: Counter, order: seq<Pair>, x: string, y: string)
    requires CounterOk(c) && Distinct(order)
    requires forall e :: e in order ==> e in c.counts && e.0 in g.nodes && e.1 in g.nodes && {e.0, e.1} !in g.edges
    requires Lex.Less(x, y) || x == y
    ensures var r := GraphStore.ApplyAll(g, EdgeOpsOf(c, order));
            && r.nodes == g.nodes
            && GraphStore.Weight(r, x, y) ==
               if (x, y) in order then Some(c.counts[(x, y)] as int) else GraphStore.Weight(g, x, y)
    decreases |order|
  {
    if |order| > 0 {
      var e := order[0];
      var g1 := GraphStore.UpsertConnection(g, e.0, e.1, c.counts[e]);
      assert EdgeOpsOf(c, order)[1..] == EdgeOpsOf(c, order[1..]);
      assert Distinct(order[1..]);
      assert order == [e] + order[1..];
      forall d | d in order[1..]
        ensures {d.0, d.1} !in g1.edges
      {
        EdgeKeysDiffer(d, e);
      }
      ApplyEdgeOps(g1, c, order[1..], x, y);
      GraphStore.UpsertConnectionWeight(g, e.0, e.1, c.counts[e], x, y);
      if {x, y} == {e.0, e.1} {
        SameEdge(e, x, y);
      }
    }
  }

  /** The graph after the track upserts, before any connection upsert. */
  function TracksBuilt(rows: seq<Row>): GraphStore.Graph {
    var st := Load(rows);
    LoadTrackOrder(rows);
    assert forall t :: t in st.trackOrder ==> t in Finish(st);
    GraphStore.ApplyAll(GraphStore.Empty, TrackOps(st.trackOrder, Finish(st)))
  }

  /** Upserting distinct tracks into the empty graph gives exactly those
      nodes with their properties, and no edge. */
  lemma TracksFromEmpty(order: seq<string>, props: map<string, Attrs>)
    requires Distinct(order) && forall t :: t in order ==> t in props
    ensures var r := GraphStore.ApplyAll(GraphStore.Empty, TrackOps(order, props));
            && r.edges == map[]
            && r.nodes.Keys == Elems(order)
            && forall t :: t in r.nodes ==> t in props && r.nodes[t] == props[t]
  {
    ApplyTrackOps(GraphStore.Empty, order, props);
  }

  /** The upsert order lists the tracks of the usable rows, each of which
      has final properties. */
  lemma TrackOrderElems(rows: seq<Row>)
    ensures Distinct(Load(rows).trackOrder)
    ensures Elems(Load(rows).trackOrder) == Elems(TrackIds(rows))
    ensures forall t :: t in Load(rows).trackOrder ==> t in Finish(Load(rows))
  {
    LoadTrackOrder(rows);
  }

  /** The track upserts build one node per track with its final properties,
      and no edge. */
  lemma TracksBuiltFacts(rows: seq<Row>)
    ensures var g, props := TracksBuilt(rows), Finish(Load(rows));
            && g.edges == map[]
            && g.nodes.Keys == Elems(TrackIds(rows))
            && forall t :: t in g.nodes ==> t in props && g.nodes[t] == props[t]
  {
    TrackOrderElems(rows);
    TracksFromEmpty(Load(rows).trackOrder, Finish(Load(rows)));
  }

  /** The build is the track upserts followed by the connection upserts. */
  lemma BuildInPhases(rows: seq<Row>)
    ensures Build(rows) == GraphStore.ApplyAll(TracksBuilt(rows), EdgeOps(EdgeCounter(Load(rows))))
  {
    var st := Load(rows);
    LoadTrackOrder(rows);
    assert forall t :: t in st.trackOrder ==> t in Finish(st);
    GraphStore.ApplyAllConcat(GraphStore.Empty, TrackOps(st.trackOrder, Finish(st)), EdgeOps(EdgeCounter(st)));
  }

  /** Only tracks of usable rows are put in playlists. */
  lemma {:induction false} PlaylistsOfNeedsTrack(rows: seq<Row>, t: string, p: string)
    requires p in PlaylistsOf(rows, t)
    ensures t in TrackIds(rows)
    decreases |rows|
  {
    var init := rows[..|rows| - 1];
    if p in PlaylistsOf(init, t) {
      PlaylistsOfNeedsTrack(init, t, p);
    }
  }

  /** Both ends of a counted edge are tracks of usable rows. */
  lemma CountedEdgeEnds(rows: seq<Row>, e: Pair)
    requires e in EdgeCounter(Load(rows)).counts
    ensures e.0 in TrackIds(rows) && e.1 in TrackIds(rows)
  {
    EdgeWeight(rows, e.0, e.1);
    var shared := PlaylistsOf(rows, e.0) * PlaylistsOf(rows, e.1);
    assert |shared| > 0;
    var p :| p in shared;
    PlaylistsOfNeedsTrack(rows, e.0, p);
    PlaylistsOfNeedsTrack(rows, e.1, p);
  }

  /** The built graph has one node per track of a usable row, holding the
      track's final properties. */
  lemma BuildNodes(rows: seq<Row>, t: string)
    ensures t in Build(rows).nodes <==> t in TrackIds(rows)
    ensures t in Build(rows).nodes ==> Build(rows).nodes[t] == Finish(Load(rows))[t]
  {
    var c := EdgeCounter(Load(rows));
    TracksBuiltFacts(rows);
    BuildInPhases(rows);
    forall e | e in c.order
      ensures e.0 in TracksBuilt(rows).nodes && e.1 in TracksBuilt(rows).nodes
    {
      CountedEdgeEnds(rows, e);
    }
    ApplyEdgeOps(TracksBuilt(rows), c, c.order, t, t);
  }

  /** `BuildWeight` for a pair in edge orientation: `a < b`, or a loop. */
  lemma BuildWeightOrdered(rows: seq<Row>, a: string, b: string)
    requires Lex.Less(a, b) || a == b
    ensures var n := |PlaylistsOf(rows, a) * PlaylistsOf(rows, b)|;
            GraphStore.Weight(Build(rows), a, b) == if a != b && n > 0 then Some(n) else None
  {
    var c := EdgeCounter(Load(rows));
    TracksBuiltFacts(rows);
    BuildInPhases(rows);
    forall e | e in c.order
      ensures e.0 in TracksBuilt(rows).nodes && e.1 in TracksBuilt(rows).nodes
    {
      CountedEdgeEnds(rows, e);
    }
    ApplyEdgeOps(TracksBuilt(rows), c, c.order, a, b);
    EdgeWeight(rows, a, b);
    Lex.LessIrreflexive(a);
  }

  /** The built graph joins two different tracks, in either order, exactly
      when some playlist holds both, with the number of such playlists as
      the weight; it has no self-loops. */
  lemma BuildWeight(rows: seq<Row>, a: string, b: string)
    ensures var n := |PlaylistsOf(rows, a) * PlaylistsOf(rows, b)|;
            GraphStore.Weight(Build(rows), a, b) == if a != b && n > 0 then Some(n) else None
  {
    if Lex.Less(a, b) || a == b {
      BuildWeightOrdered(rows, a, b);
    } else {
      Lex.LessTotal(a, b);
      BuildWeightOrdered(rows, b, a);
      GraphStore.WeightSymmetric(Build(rows), a, b);
      assert PlaylistsOf(rows, a) * PlaylistsOf(rows, b) == PlaylistsOf(rows, b) * PlaylistsOf(rows, a);
    }
  }

  /** End to end: in the built graph a track of a usable row has its
      playlist count and, for each descriptive column, the first non-blank
      stripped value its rows offer; any other id is not a node. */
  lemma BuildAttrs(rows: seq<Row>, t: string, f: Field)
    ensures GraphStore.Attr(Build(rows), t, PlaylistCountKey) ==
            if t in TrackIds(rows) then Some(GraphStore.Int(|PlaylistsOf(rows, t)|)) else None
    ensures GraphStore.Attr(Build(rows), t, Key(f)) ==
            if FirstValue(rows, t, f).Some? then Some(GraphStore.Text(FirstValue(rows, t, f).value)) else None
  {
    BuildNodes(rows, t);
    FinalProps(rows, t, f);
    if FirstValue(rows, t, f).Some? {
      FirstValueNeedsTrack(rows, t, f);
    }
  }
}
