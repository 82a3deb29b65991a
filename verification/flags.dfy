/** The flag atlas of `W3wUtils.getFlagImage`: a 16 by 16 grid of 64 by 48 pixel tiles,
    one per country code, in the order of `countries`. Only the index and offset
    arithmetic is modelled; loading and cropping the image is not. */
module Flags {
  import opened Wrappers
  import opened Text

  const Rows: nat := 16
  const Cols: nat := 16
  const Width: nat := 64
  const Height: nat := 48

  /** `W3wUtils.countries`, one row of the atlas per line. */
  const Countries: seq<string> := [
    "ad", "ae", "af", "ag", "ai", "al", "am", "ao", "aq", "ar", "as", "at", "au", "aw", "ax", "az",
    "ba", "bb", "bd", "be", "bf", "bg", "bh", "bi", "bj", "bl", "bm", "bn", "bo", "bq", "br", "bs",
    "bt", "bv", "bw", "by", "bz", "ca", "cc", "cd", "cf", "cg", "ch", "ci", "ck", "cl", "cm", "cn",
    "co", "cr", "cu", "cv", "cw", "cx", "cy", "cz", "de", "dj", "dk", "dm", "do", "dz", "ec", "ee",
    "eg", "eh", "er", "es", "et", "eu", "fi", "fj", "fk", "fm", "fo", "fr", "ga", "gb-eng", "gb-nir", "gb-sct",
    "gb-wls", "gb", "gd", "ge", "gf", "gg", "gh", "gi", "gl", "gm", "gn", "gp", "gq", "gr", "gs", "gt",
    "gu", "gw", "gy", "hk", "hm", "hn", "hr", "ht", "hu", "id", "ie", "il", "im", "in", "io", "iq",
    "ir", "is", "it", "je", "jm", "jo", "jp", "ke", "kg", "kh", "ki", "km", "kn", "kp", "kr", "kw",
    "ky", "kz", "la", "lb", "lc", "li", "lk", "lr", "ls", "lt", "lu", "lv", "ly", "ma", "mc", "md",
    "me", "mf", "mg", "mh", "mk", "ml", "mm", "mn", "mo", "mp", "mq", "mr", "ms", "mt", "mu", "mv",
    "mw", "mx", "my", "mz", "na", "nc", "ne", "nf", "ng", "ni", "nl", "no", "np", "nr", "nu", "nz",
    "om", "pa", "pe", "pf", "pg", "ph", "pk", "pl", "pm", "pn", "pr", "ps", "pt", "pw", "py", "qa",
    "re", "ro", "rs", "ru", "rw", "sa", "sb", "sc", "sd", "se", "sg", "sh", "si", "sj", "sk", "sl",
    "sm", "sn", "so", "sr", "ss", "st", "sv", "sx", "sy", "sz", "tc", "td", "tf", "tg", "th", "tj",
    "tk", "tl", "tm", "tn", "to", "tr", "tt", "tv", "tw", "tz", "ua", "ug", "um", "un", "us", "uy",
    "uz", "va", "vc", "ve", "vg", "vi", "vn", "vu", "wf", "ws", "ye", "yt", "za", "zm", "zw", "zz"
  ]

  /** The top-left pixel of a tile in the atlas. */
  datatype Tile = Tile(x: nat, y: nat)

  /** The first position of `v` in `xs`, if any (`firstIndex(of:)`). */
  function FirstIndexOf(xs: seq<string>, v: string): (r: Option<nat>)
    ensures r.Some? ==> r.value < |xs| && xs[r.value] == v && forall j :: 0 <= j < r.value ==> xs[j] != v
    ensures r.None? <==> v !in xs
    decreases |xs|
  {
    if xs == [] then None
    else if xs[0] == v then Some(0)
    else match FirstIndexOf(xs[1..], v)
      case None => None
      case Some(i) => Some(i + 1)
  }

  /** The atlas position read back from a tile: row `y / 48`, column `x / 64`. */
  function IndexOfTile(t: Tile): nat {
    (t.y / Height) * Cols + t.x / Width
  }

  /** `getFlagImage(countryName:)` up to the crop, over an atlas list `atlas`: the tile of
      the first occurrence of the lower-cased name. A name not in the list force-unwraps
      `nil`. Every tile lies on the 64 by 48 grid and reads back to the first position of
      the name. */
  function TileIn(atlas: seq<string>, name: string): (r: Result<Tile>)
    requires |atlas| <= Rows * Cols
    ensures r.Failure? <==> LowerAscii(name) !in atlas
    ensures r.Success? ==>
      && r.value.x % Width == 0 && r.value.x < Cols * Width
      && r.value.y % Height == 0 && r.value.y < Rows * Height
      && IndexOfTile(r.value) < |atlas|
      && atlas[IndexOfTile(r.value)] == LowerAscii(name)
      && forall j :: 0 <= j < IndexOfTile(r.value) ==> atlas[j] != LowerAscii(name)
  {
    match FirstIndexOf(atlas, LowerAscii(name))
    case None => Failure(ForceUnwrapOfNil)
    case Some(countryIndex) =>
      // The names follow the program, where they are swapped: `row` is the column,
      // which gives x, and `col` is the row, which gives y.
      var row := countryIndex % Cols;
      var col := countryIndex / Rows;
      TileIndex(countryIndex);
      Success(Tile(row * Width, col * Height))
  }

  /** The tile `getFlagImage` crops for a country name: it exists exactly when the
      lower-cased name is one of the 256 codes, which fill the atlas. */
  function FlagTile(name: string): (r: Result<Tile>)
    ensures r.Failure? <==> LowerAscii(name) !in Countries
    ensures r.Success? ==> IndexOfTile(r.value) < |Countries| && Countries[IndexOfTile(r.value)] == LowerAscii(name)
  {
    assert |Countries| == Rows * Cols;
    TileIn(Countries, name)
  }

  /** The letter case of a name never changes its tile, on any atlas (the country list
      included, as `FlagTile` is `TileIn` over it). */
  lemma TileInIgnoresCase(atlas: seq<string>, name: string)
    requires |atlas| <= Rows * Cols
    ensures TileIn(atlas, LowerAscii(name)) == TileIn(atlas, name)
  {
    LowerAsciiIdempotent(name);
  }

  /** The offset arithmetic is invertible on the atlas: the tile of position `i` reads
      back to `i`. */
  lemma TileIndex(i: nat)
    requires i < Rows * Cols
    ensures var t := Tile((i % Cols) * Width, (i / Rows) * Height);
      && t.x % Width == 0 && t.x < Cols * Width
      && t.y % Height == 0 && t.y < Rows * Height
      && IndexOfTile(t) == i
  {
  }

  /** Different country codes get different tiles. */
  lemma DistinctNamesDistinctTiles(atlas: seq<string>, a: string, b: string)
    requires |atlas| <= Rows * Cols
    requires TileIn(atlas, a).Success? && TileIn(atlas, b).Success?
    requires LowerAscii(a) != LowerAscii(b)
    ensures TileIn(atlas, a).value != TileIn(atlas, b).value
  {
  }
}
