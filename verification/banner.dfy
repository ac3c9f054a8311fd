/** The rotating banner of Slice.jsx: stored image paths become public
    storage URLs (or are dropped), and a timer steps the shown index round
    the list. */
module Banner {
  import opened Text
  import opened Outcomes

  /** A fetched row of the `slice` table; `imagenSlice` is None when the
      column is null. */
  datatype Row = Row(id: int, imagenSlice: Option<string>)

  /** What the query returned: rows (`data` may itself be null), or an
      error. */
  datatype SliceFetch = Fetched(data: Option<seq<Row>>) | FetchError

  /** The component state: the image URLs and the index shown. */
  datatype BannerState = BannerState(images: seq<string>, index: nat)

  /** What the section renders: the current slide (its `src` is undefined
      when the index is outside the list) or the loading placeholder. */
  datatype View = Slide(src: Option<string>, alt: string) | Placeholder(text: string)

  const DefaultBucket: string := "slice"
  const StoragePath: string := "/storage/v1/object/public/"
  const LoadingText: string := "Cargando banners"

  // ---------------------------------------------------------------------
  // Configuration
  // ---------------------------------------------------------------------

  /** The storage URL setting with one trailing "/" removed; an unset or
      empty setting gives "". */
  function BaseUrl(env: Option<string>): (b: string)
    ensures env.None? || env == Some("") ==> b == ""
    ensures env.Some? && env.value != "" ==> b == env.value || b + "/" == env.value
    ensures env.Some? && |env.value| > 0 && env.value[|env.value| - 1] == '/' ==> b + "/" == env.value
    ensures env.Some? && |env.value| > 0 && env.value[|env.value| - 1] != '/' ==> b == env.value
  {
    match env
    case None => ""
    case Some(s) =>
      if s == "" then ""
      else if s[|s| - 1] == '/' then s[..|s| - 1]
      else s
  }

  /** The bucket setting, "slice" when unset or empty. */
  function Bucket(env: Option<string>): (k: string)
    ensures env.Some? && env.value != "" ==> k == env.value
    ensures env.None? || env == Some("") ==> k == DefaultBucket
  {
    if env.Some? && env.value != "" then env.value else DefaultBucket
  }

  // ---------------------------------------------------------------------
  // From stored paths to URLs
  // ---------------------------------------------------------------------

  /** `b.imagen_slice || ""`. */
  function Path(r: Row): (p: string)
    ensures r.imagenSlice.None? ==> p == ""
    ensures r.imagenSlice.Some? ==> p == r.imagenSlice.value
  {
    if r.imagenSlice.Some? then r.imagenSlice.value else ""
  }

  /** A path that already is a URL: it starts with "http" or "//". */
  predicate IsAbsolute(img: string) {
    StartsWith(img, "http") || StartsWith(img, "//")
  }

  /** Everything the public URL of a relative path puts before the path. */
  function PublicPrefix(base: string, bucket: string): string {
    base + StoragePath + bucket + "/"
  }

  /** The `map` callback: an absolute path is kept, an empty one is dropped
      (null, later filtered out), any other is placed under the bucket's
      public URL. */
  function ToUrl(img: string, base: string, bucket: string): (u: Option<string>)
    ensures u.None? <==> img == ""
    ensures IsAbsolute(img) ==> u == Some(img)
    ensures u.Some? ==> u.value != ""
    ensures u.Some? && !IsAbsolute(img) ==>
              StartsWith(u.value, PublicPrefix(base, bucket)) && u.value[|PublicPrefix(base, bucket)|..] == img
  {
    if IsAbsolute(img) then Some(img)
    else if img == "" then None
    else
      var u := PublicPrefix(base, bucket) + img;
      assert u[..|PublicPrefix(base, bucket)|] == PublicPrefix(base, bucket);
      assert u[|PublicPrefix(base, bucket)|..] == img;
      Some(u)
  }

  /** The `map` followed by `filter(Boolean)`. */
  function NormaliseAll(rows: seq<Row>, base: string, bucket: string): (urls: seq<string>)
    ensures |urls| <= |rows|
    ensures forall i :: 0 <= i < |urls| ==> urls[i] != ""
  {
    if |rows| == 0 then []
    else
      var head := match ToUrl(Path(rows[0]), base, bucket)
        case None => []
        case Some(u) => [u];
      head + NormaliseAll(rows[1..], base, bucket)
  }

  // ---------------------------------------------------------------------
  // The reference description: drop the empty paths, then convert each
  // ---------------------------------------------------------------------

  /** The non-empty paths, in row order. */
  function NonEmptyPaths(rows: seq<Row>): seq<string> {
    if |rows| == 0 then []
    else (if Path(rows[0]) == "" then [] else [Path(rows[0])]) + NonEmptyPaths(rows[1..])
  }

  /** The URL of a non-empty path. */
  function Convert(img: string, base: string, bucket: string): string {
    if IsAbsolute(img) then img else PublicPrefix(base, bucket) + img
  }

  function ConvertAll(ps: seq<string>, base: string, bucket: string): (us: seq<string>)
    ensures |us| == |ps|
    ensures forall i :: 0 <= i < |ps| ==> us[i] == Convert(ps[i], base, bucket)
  {
    if |ps| == 0 then [] else [Convert(ps[0], base, bucket)] + ConvertAll(ps[1..], base, bucket)
  }

  /** The URL list is exactly the non-empty paths, in row order, each
      converted: nothing non-empty is lost, nothing is reordered. */
  lemma {:induction false} NormaliseAllIsConvertedPaths(rows: seq<Row>, base: string, bucket: string)
    ensures NormaliseAll(rows, base, bucket) == ConvertAll(NonEmptyPaths(rows), base, bucket)
  {
    if |rows| > 0 {
      NormaliseAllIsConvertedPaths(rows[1..], base, bucket);
      var p := Path(rows[0]);
      var rest := NonEmptyPaths(rows[1..]);
      if p != "" {
        assert ConvertAll([p] + rest, base, bucket) == [Convert(p, base, bucket)] + ConvertAll(rest, base, bucket) by {
          assert ([p] + rest)[1..] == rest;
        }
      } else {
        assert [] + rest == rest;
      }
    }
  }

  /** Exactly the rows with a non-empty path survive. */
  lemma {:induction false} NormaliseAllLength(rows: seq<Row>, base: string, bucket: string)
    ensures |NormaliseAll(rows, base, bucket)| == |NonEmptyPaths(rows)|
  {
    NormaliseAllIsConvertedPaths(rows, base, bucket);
  }

  /** A relative path can be read back from its URL by removing the public
      prefix. */
  lemma {:induction false} RelativeRoundTrip(img: string, base: string, bucket: string)
    requires img != "" && !IsAbsolute(img)
    ensures var u := Convert(img, base, bucket);
            StartsWith(u, PublicPrefix(base, bucket)) && u[|PublicPrefix(base, bucket)|..] == img
  {
    var u := Convert(img, base, bucket);
    assert u[..|PublicPrefix(base, bucket)|] == PublicPrefix(base, bucket);
  }

  // ---------------------------------------------------------------------
  // Loading and rotation
  // ---------------------------------------------------------------------

  const Initial: BannerState := BannerState([], 0)

  /** `cargarImagenes`: on an error nothing changes; otherwise the URLs of
      the rows (none when `data` is null) replace the image list. */
  function Load(st: BannerState, f: SliceFetch, urlEnv: Option<string>, bucketEnv: Option<string>): (r: BannerState)
    ensures f.FetchError? ==> r == st
    ensures r.index == st.index
    ensures f.Fetched? && f.data.None? ==> r.images == []
    ensures f.Fetched? && f.data.Some? ==>
              r.images == ConvertAll(NonEmptyPaths(f.data.value), BaseUrl(urlEnv), Bucket(bucketEnv))
  {
    match f
    case FetchError => st
    case Fetched(data) =>
      var rows := if data.Some? then data.value else [];
      NormaliseAllIsConvertedPaths(rows, BaseUrl(urlEnv), Bucket(bucketEnv));
      st.(images := NormaliseAll(rows, BaseUrl(urlEnv), Bucket(bucketEnv)))
  }

  /** The index shown is a position of the list (or the list is empty). */
  predicate InRange(st: BannerState) {
    |st.images| == 0 || st.index < |st.images|
  }

  /** One interval tick: `(prev + 1) % length`; with no images no interval
      runs and nothing changes. */
  function Tick(st: BannerState): (r: BannerState)
    ensures r.images == st.images
    ensures |st.images| == 0 ==> r == st
    ensures |st.images| > 0 ==> r.index < |st.images|
    ensures InRange(st) && |st.images| > 0 ==>
              r.index == (if st.index + 1 == |st.images| then 0 else st.index + 1)
  {
    if |st.images| == 0 then st
    else st.(index := (st.index + 1) % |st.images|)
  }

  /** `k` ticks in a row. */
  function Ticks(st: BannerState, k: nat): BannerState {
    if k == 0 then st else Tick(Ticks(st, k - 1))
  }

  /** After `k` ticks the index has advanced by `k`, modulo the length. */
  lemma {:induction false} TicksIndex(st: BannerState, k: nat)
    requires |st.images| > 0 && st.index < |st.images|
    ensures Ticks(st, k).images == st.images
    ensures Ticks(st, k).index == (st.index + k) % |st.images|
  {
    if k > 0 {
      TicksIndex(st, k - 1);
      var n := |st.images|;
      ModSucc(st.index + k - 1, n);
    }
  }

  /** Division with remainder has a unique result. */
  lemma {:induction false} ModUnique(x: int, n: int, q: int, r: int)
    requires n > 0 && 0 <= r < n && x == q * n + r
    ensures x % n == r
  {
    var q', r' := x / n, x % n;
    assert (q - q') * n == r' - r;
    if q > q' {
      assert (q - q') * n >= n by { MulAtLeast(q - q', n); }
    } else if q < q' {
      assert (q' - q) * n >= n by { MulAtLeast(q' - q, n); }
    }
  }

  lemma {:induction false} MulAtLeast(a: int, n: int)
    requires a >= 1 && n > 0
    ensures a * n >= n
  {
  }

  lemma {:induction false} ModSucc(x: nat, n: nat)
    requires n > 0
    ensures (x % n + 1) % n == (x + 1) % n
  {
    var q, j := x / n, x % n;
    if j + 1 < n {
      ModUnique(x + 1, n, q, j + 1);
      ModUnique(j + 1, n, 0, j + 1);
    } else {
      ModUnique(x + 1, n, q + 1, 0);
      ModUnique(j + 1, n, 1, 0);
    }
  }

  /** Ticks keep the index inside the list. */
  lemma {:induction false} TicksInRange(st: BannerState, k: nat)
    requires InRange(st)
    ensures InRange(Ticks(st, k))
  {
    if |st.images| > 0 {
      TicksIndex(st, k);
    } else {
      NoImagesNoRotation(st, k);
    }
  }

  /** After as many ticks as there are images, the same image is shown
      again. */
  lemma {:induction false} TicksReturn(st: BannerState)
    requires |st.images| > 0 && st.index < |st.images|
    ensures Ticks(st, |st.images|) == st
  {
    TicksIndex(st, |st.images|);
    ModUnique(st.index + |st.images|, |st.images|, 1, st.index);
  }

  /** With no images the index never moves. */
  lemma {:induction false} NoImagesNoRotation(st: BannerState, k: nat)
    requires |st.images| == 0
    ensures Ticks(st, k) == st
  {
    if k > 0 {
      NoImagesNoRotation(st, k - 1);
    }
  }

  /** The section: the placeholder while there are no images, otherwise the
      image at the index with alt text "Banner <index + 1>". */
  function Render(st: BannerState): (v: View)
    ensures v.Placeholder? <==> |st.images| == 0
    ensures v.Placeholder? ==> v.text == LoadingText
    ensures v.Slide? && st.index < |st.images| ==> v.src == Some(st.images[st.index])
    ensures v.Slide? ==> v.alt == "Banner " + IntToString(st.index + 1)
  {
    if |st.images| > 0 then
      Slide(if st.index < |st.images| then Some(st.images[st.index]) else None,
            "Banner " + IntToString(st.index + 1))
    else Placeholder(LoadingText)
  }

  /** Mounting and loading then ticking any number of times always shows a
      real image or the placeholder: the index never leaves the list. */
  lemma {:induction false} ShownImageDefined(f: SliceFetch, urlEnv: Option<string>, bucketEnv: Option<string>, k: nat)
    ensures var st := Ticks(Load(Initial, f, urlEnv, bucketEnv), k);
            Render(st).Slide? ==> Render(st).src.Some?
  {
    var st0 := Load(Initial, f, urlEnv, bucketEnv);
    assert InRange(st0);
    TicksInRange(st0, k);
  }

  /** Three images rotate 0, 1, 2 and back to 0. */
  lemma {:induction false} ScenarioThreeImages()
    ensures var st := BannerState(["a", "b", "c"], 0);
            Ticks(st, 1).index == 1 && Ticks(st, 2).index == 2 && Ticks(st, 3).index == 0
  {
    var st := BannerState(["a", "b", "c"], 0);
    TicksIndex(st, 1);
    TicksIndex(st, 2);
    TicksIndex(st, 3);
  }

  /** A non-empty relative path is placed right after the public prefix. */
  lemma {:induction false} ToUrlRelative(img: string, base: string, bucket: string)
    requires img != "" && !IsAbsolute(img)
    ensures ToUrl(img, base, bucket) == Some(PublicPrefix(base, bucket) + img)
  {
  }

  /** A relative path under a base with a trailing slash: the slash is
      dropped once and the default bucket is used. */
  lemma {:induction false} ScenarioRelativeUrl()
    ensures ToUrl("promo.png", BaseUrl(Some("https://x.co/")), Bucket(None))
            == Some("https://x.co/storage/v1/object/public/slice/promo.png")
  {
    assert BaseUrl(Some("https://x.co/")) == "https://x.co";
    assert !IsAbsolute("promo.png") by {
      assert "promo.png"[..4] == "prom" && "promo.png"[..2] == "pr";
    }
    ToUrlRelative("promo.png", "https://x.co", DefaultBucket);
    PromoUrl();
  }

  /** The public URL of "promo.png" in the default bucket of "https://x.co". */
  lemma {:induction false} PromoUrl()
    ensures PublicPrefix("https://x.co", DefaultBucket) + "promo.png"
            == "https://x.co/storage/v1/object/public/slice/promo.png"
  {
    assert "https://x.co" + StoragePath == "https://x.co/storage/v1/object/public/";
    assert PublicPrefix("https://x.co", DefaultBucket) == "https://x.co/storage/v1/object/public/slice/";
  }

  /** An absolute URL is kept as it is, and an empty path is dropped. */
  lemma {:induction false} ScenarioAbsoluteAndEmpty(base: string, bucket: string)
    ensures ToUrl("https://cdn/img.png", base, bucket) == Some("https://cdn/img.png")
    ensures ToUrl("//cdn/img.png", base, bucket) == Some("//cdn/img.png")
    ensures ToUrl("", base, bucket) == None
  {
    assert "https://cdn/img.png"[..4] == "http";
    assert "//cdn/img.png"[..2] == "//";
  }
}
