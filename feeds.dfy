/**
 * Which NVD feeds a run considers, and where each one lives: the modifier
 * list built by `initial_setup`, and the URL and file name `get_and_load`
 * derives from it by replacing every `year` in a template.
 */
module Feeds {
  import PyStr
  import FeedMeta

  /** A feed is named by a year or by a label (`modified`, `recent`). */
  datatype Modifier = Year(year: nat) | Label(name: string)

  /** `str(modifier)` */
  function ModifierText(m: Modifier): string {
    match m
    case Year(y) => PyStr.Decimal(y)
    case Label(name) => name
  }

  const FirstYear: nat := 2002
  const Modified := Label("modified")
  const Recent := Label("recent")

  const UrlPrefix := "https://" + "nvd.nist.gov/" + "feeds/" + "json/" + "cve/1.1/" + "nvdcve-1.1-"
  const UrlSuffix := ".json.zip"
  const FilePrefix := "./jsonfiles/" + "nvdcve-1.1-"
  const FileSuffix := ".json"

  /** https://nvd.nist.gov/feeds/json/cve/1.1/nvdcve-1.1-year.json.zip */
  const BaseUrl := UrlPrefix + "year" + UrlSuffix
  /** ./jsonfiles/nvdcve-1.1-year.json */
  const FilenameTemplate := FilePrefix + "year" + FileSuffix

  /**
   * The list `initial_setup` returns: with `getAllData`, the years from 2002 to
   * `thisYear` ascending (none when `thisYear` is before 2002) followed by
   * `modified` and `recent`; otherwise exactly `modified` and `recent`.
   */
  predicate IsModifierList(mods: seq<Modifier>, getAllData: bool, thisYear: int) {
    var years := if getAllData && thisYear >= FirstYear then thisYear - FirstYear + 1 else 0;
    && |mods| == years + 2
    && (forall i :: 0 <= i < years ==> mods[i] == Year(FirstYear + i))
    && mods[years] == Modified && mods[years + 1] == Recent
  }

  method InitialModifiers(getAllData: bool, thisYear: int) returns (mods: seq<Modifier>)
    ensures IsModifierList(mods, getAllData, thisYear)
  {
    if getAllData {
      mods := [];
      var y: nat := FirstYear;
      while y <= thisYear
        invariant FirstYear <= y && (y > FirstYear ==> y <= thisYear + 1)
        invariant |mods| == y - FirstYear
        invariant forall i :: 0 <= i < |mods| ==> mods[i] == Year(FirstYear + i)
        decreases thisYear - y
      {
        mods := mods + [Year(y)];
        y := y + 1;
      }
      mods := mods + [Modified];
      mods := mods + [Recent];
    } else {
      mods := [Modified, Recent];
    }
  }

  /** `re.sub('year', str(modifier), template)`: the replacement holds no backslash, so it is a plain replace. */
  function Substitute(template: string, m: Modifier): string {
    PyStr.ReplaceAll(template, "year", ModifierText(m))
  }

  /** The URL of a feed: the modifier between the fixed parts of BaseUrl. */
  function FeedUrl(m: Modifier): string {
    UrlPrefix + ModifierText(m) + UrlSuffix
  }

  /** The URLs of the feeds of a modifier list, in the order get_and_load visits them. */
  function FeedUrls(mods: seq<Modifier>): seq<string> {
    seq(|mods|, i requires 0 <= i < |mods| => FeedUrl(mods[i]))
  }

  /** The local file of a feed: the modifier between the fixed parts of the file name template. */
  function FeedFile(m: Modifier): string {
    FilePrefix + ModifierText(m) + FileSuffix
  }

  /** The only `year` in either template is the placeholder, so substituting the modifier yields FeedUrl and FeedFile. */
  lemma TemplateShapes(m: Modifier)
    ensures Substitute(BaseUrl, m) == FeedUrl(m)
    ensures Substitute(FilenameTemplate, m) == FeedFile(m)
  {
    assert 'y' !in "https://" && 'y' !in "nvd.nist.gov/" && 'y' !in "feeds/" && 'y' !in "json/" && 'y' !in "cve/1.1/";
    assert 'y' !in "./jsonfiles/" && 'y' !in "nvdcve-1.1-";
    PyStr.ReplaceTemplate(UrlPrefix, "year", UrlSuffix, ModifierText(m));
    PyStr.ReplaceTemplate(FilePrefix, "year", FileSuffix, ModifierText(m));
  }

  lemma CancelAround(p: string, t1: string, t2: string, q: string)
    requires p + t1 + q == p + t2 + q
    ensures t1 == t2
  {
    var s := p + t1 + q;
    assert |t1| == |t2|;
    assert s[|p|..|p| + |t1|] == t1;
    assert (p + t2 + q)[|p|..|p| + |t2|] == t2;
  }

  /** Two modifiers that print differently name different feeds and different files. */
  lemma DistinctTextsDistinctFeeds(m1: Modifier, m2: Modifier)
    requires ModifierText(m1) != ModifierText(m2)
    ensures FeedUrl(m1) != FeedUrl(m2) && FeedFile(m1) != FeedFile(m2)
  {
    if FeedUrl(m1) == FeedUrl(m2) {
      CancelAround(UrlPrefix, ModifierText(m1), ModifierText(m2), UrlSuffix);
    }
    if FeedFile(m1) == FeedFile(m2) {
      CancelAround(FilePrefix, ModifierText(m1), ModifierText(m2), FileSuffix);
    }
  }

  /** The modifiers a list can hold: years and the two labels. */
  predicate Known(m: Modifier) {
    m.Year? || m == Modified || m == Recent
  }

  /** Different known modifiers print differently: years by int(str(y)) == y, labels by their letters. */
  lemma KnownTextsDiffer(a: Modifier, b: Modifier)
    requires Known(a) && Known(b) && a != b
    ensures ModifierText(a) != ModifierText(b)
  {
    if a.Year? && b.Year? {
      PyStr.DecimalRoundTrip(a.year);
      PyStr.DecimalRoundTrip(b.year);
    } else if a.Year? {
      assert ModifierText(b)[0] in "mr";
    } else if b.Year? {
      assert ModifierText(a)[0] in "mr";
    } else {
      assert ModifierText(a)[0] != ModifierText(b)[0];
    }
  }

  /** The modifiers of a list are pairwise different and print pairwise differently. */
  lemma ModifierTextsDistinct(mods: seq<Modifier>, getAllData: bool, thisYear: int)
    requires IsModifierList(mods, getAllData, thisYear)
    ensures forall i, j :: 0 <= i < j < |mods| ==> ModifierText(mods[i]) != ModifierText(mods[j])
  {
    var years := |mods| - 2;
    forall i, j | 0 <= i < j < |mods|
      ensures ModifierText(mods[i]) != ModifierText(mods[j])
    {
      assert Known(mods[i]) && Known(mods[j]);
      assert mods[i] != mods[j] by {
        if j < years {
          assert mods[i].year < mods[j].year;
        }
      }
      KnownTextsDiffer(mods[i], mods[j]);
    }
  }

  /** Every feed of a modifier list has its own URL and its own file. */
  lemma FeedsDistinct(mods: seq<Modifier>, getAllData: bool, thisYear: int)
    requires IsModifierList(mods, getAllData, thisYear)
    ensures forall i, j :: 0 <= i < j < |mods| ==> FeedUrl(mods[i]) != FeedUrl(mods[j]) && FeedFile(mods[i]) != FeedFile(mods[j])
  {
    ModifierTextsDistinct(mods, getAllData, thisYear);
    forall i, j | 0 <= i < j < |mods|
      ensures FeedUrl(mods[i]) != FeedUrl(mods[j]) && FeedFile(mods[i]) != FeedFile(mods[j])
    {
      DistinctTextsDistinctFeeds(mods[i], mods[j]);
    }
  }

  /** `json/` starts with the pattern's first letter but is no occurrence: scanning moves one character on. */
  lemma NearMiss(x: string)
    ensures PyStr.ReplaceAll("json/" + x, "json.zip", "meta") == "j" + PyStr.ReplaceAll("son/" + x, "json.zip", "meta")
  {
    var s := "json/" + x;
    assert s[1..] == "son/" + x;
    if |s| >= 8 {
      assert s[..8] != "json.zip" by { assert s[4] == '/'; }
    }
  }

  /** The scan of such a URL: past the head unchanged, one step over `json/`, then the single occurrence. */
  lemma ReplaceInFeedUrl(head: string, tail: string)
    requires 'j' !in head && 'j' !in tail
    ensures PyStr.ReplaceAll(head + ("json/" + (tail + ".json.zip")), "json.zip", "meta")
         == head + ("j" + (("son/" + tail + ".") + "meta" + ""))
  {
    var mid := "son/" + tail + ".";
    PyStr.ReplaceSkips(head, "json/" + (tail + ".json.zip"), "json.zip", "meta");
    NearMiss(tail + ".json.zip");
    assert "son/" + (tail + ".json.zip") == mid + "json.zip" + "";
    PyStr.ReplaceTemplate(mid, "json.zip", "", "meta");
  }

  lemma MetaUrlShape(head: string, tail: string)
    ensures head + ("j" + (("son/" + tail + ".") + "meta" + "")) == head + "json/" + tail + ".meta"
  {
    var mid := "son/" + tail + ".";
    assert mid + "meta" + "" == "son/" + tail + ".meta" by {
      assert mid + "meta" + "" == "son/" + (tail + ("." + "meta"));
      assert "." + "meta" == ".meta";
    }
    assert "j" + ("son/" + tail + ".meta") == "json/" + tail + ".meta";
  }

  /** In a URL whose only `j` outside the suffix starts `json/`, replacing `json.zip` touches the suffix alone. */
  lemma MetaBeside(head: string, tail: string)
    requires 'j' !in head && 'j' !in tail
    ensures FeedMeta.MetaUrl(head + "json/" + tail + ".json.zip") == head + "json/" + tail + ".meta"
  {
    assert head + "json/" + tail + ".json.zip" == head + ("json/" + (tail + ".json.zip"));
    ReplaceInFeedUrl(head, tail);
    MetaUrlShape(head, tail);
  }

  /** The descriptor of a listed feed sits beside it: `json.zip` becomes `meta`, and nothing else changes. */
  lemma FeedMetaUrl(m: Modifier)
    requires Known(m)
    ensures FeedMeta.MetaUrl(FeedUrl(m)) == UrlPrefix + ModifierText(m) + ".meta"
  {
    var text := ModifierText(m);
    assert 'j' !in text by {
      if m.Year? {
        assert forall i :: 0 <= i < |text| ==> PyStr.IsDigit(text[i]);
      }
    }
    var head := "https://" + "nvd.nist.gov/" + "feeds/";
    var tail := "cve/1.1/" + "nvdcve-1.1-" + text;
    MetaBeside(head, tail);
    assert UrlPrefix + text == head + "json/" + tail;
  }

  /** The feed of 2019 as the loader fetches it. */
  lemma Example2019()
    ensures Substitute(BaseUrl, Year(2019)) == UrlPrefix + "2019" + UrlSuffix
  {
    TemplateShapes(Year(2019));
    assert PyStr.Decimal(2) == "2";
    assert PyStr.Decimal(20) == "20";
    assert PyStr.Decimal(201) == "201";
    assert PyStr.Decimal(2019) == "2019";
  }
}
