/**
 * The `.meta` descriptor NVD publishes beside every feed file: five
 * `name:value` lines (last modification date, size, zip size, gzip size,
 * SHA-256), read by `get_file_lastModifiedDate`. The network fetch is left
 * out: the descriptor's text is the input.
 */
module FeedMeta {
  import opened Wrappers
  import PyStr

  datatype Meta = Meta(lastModifiedDate: string, size: string, zipSize: string, gzSize: string, sha256: string)

  const DateTag := "lastModifiedDate:"
  const SizeTag := "size:"
  const ZipSizeTag := "zipSize:"
  const GzSizeTag := "gzSize:"
  const ShaTag := "sha256:"

  /** The descriptor's URL: the feed URL with `json.zip` replaced by `meta`. */
  function MetaUrl(fileUrl: string): string {
    PyStr.ReplaceAll(fileUrl, "json.zip", "meta")
  }

  /** line.lstrip(tag).rstrip('\r'): the tag is stripped as a set of characters, not as a prefix. */
  function Field(line: string, tag: string): string {
    PyStr.RStrip(PyStr.LStrip(line, tag), "\r")
  }

  /** Split the body on '\n' and read lines 0 to 4; fewer than five lines raise IndexError. */
  function ParseMeta(body: string): (r: Result<Meta>)
    ensures r.Ok? <==> PyStr.Count(body, '\n') >= 4
    ensures r.Err? ==> r.error == IndexError
  {
    var lines := PyStr.Split(body, '\n');
    if |lines| < 5 then Err(IndexError)
    else
      Ok(Meta(Field(lines[0], DateTag), Field(lines[1], SizeTag), Field(lines[2], ZipSizeTag),
              Field(lines[3], GzSizeTag), Field(lines[4], ShaTag)))
  }

  /** The descriptor as NVD writes it: CRLF-terminated `name:value` lines. */
  function Render(m: Meta): string {
    PyStr.Join(RenderedLines(m), "\n")
  }

  /** The tags of the five lines, in order. */
  const Tags: seq<string> := [DateTag, SizeTag, ZipSizeTag, GzSizeTag, ShaTag]

  function Values(m: Meta): seq<string> {
    [m.lastModifiedDate, m.size, m.zipSize, m.gzSize, m.sha256]
  }

  function RenderedLines(m: Meta): (lines: seq<string>)
    ensures |lines| == 5 && forall k :: 0 <= k < 5 ==> lines[k] == Tags[k] + Values(m)[k] + "\r"
  {
    seq(5, k requires 0 <= k < 5 => Tags[k] + Values(m)[k] + "\r")
  }

  /** A value the parser reads back intact after `tag`: it does not begin with one of the tag's characters. */
  predicate Survives(value: string, tag: string) {
    (value == [] || value[0] !in tag) && FitsOnLine(value)
  }

  /** A value that fits on one line and does not end in a carriage return. */
  predicate FitsOnLine(value: string) {
    '\n' !in value && (value == [] || value[|value| - 1] != '\r')
  }

  lemma {:induction false} LStripTagThenValue(tag: string, value: string)
    ensures PyStr.LStrip(tag + value, tag) == PyStr.LStrip(value, tag)
  {
    if |tag| > 0 {
      var t := tag[1..];
      assert (tag + value)[0] == tag[0];
      assert (tag + value)[1..] == t + value;
      LStripTagThenValueFrom(tag, t, value);
    } else {
      assert tag + value == value;
    }
  }

  lemma {:induction false} LStripTagThenValueFrom(tag: string, t: string, value: string)
    requires forall i :: 0 <= i < |t| ==> t[i] in tag
    ensures PyStr.LStrip(t + value, tag) == PyStr.LStrip(value, tag)
  {
    if |t| > 0 {
      assert (t + value)[0] == t[0];
      assert (t + value)[1..] == t[1..] + value;
      LStripTagThenValueFrom(tag, t[1..], value);
    } else {
      assert t + value == value;
    }
  }

  lemma {:induction false} LStripThenCr(value: string, tag: string)
    requires '\r' !in tag
    ensures PyStr.LStrip(value + "\r", tag) == PyStr.LStrip(value, tag) + "\r"
  {
    if |value| > 0 && value[0] in tag {
      assert (value + "\r")[1..] == value[1..] + "\r";
      LStripThenCr(value[1..], tag);
    } else if |value| == 0 {
      assert value + "\r" == "\r";
    }
  }

  lemma RStripOneCr(v: string)
    requires v == [] || v[|v| - 1] != '\r'
    ensures PyStr.RStrip(v + "\r", "\r") == v
  {
    var w := v + "\r";
    assert w[|w| - 1] == '\r';
    assert w[..|w| - 1] == v;
    assert PyStr.RStrip(w, "\r") == PyStr.RStrip(v, "\r");
    assert v == [] || v[|v| - 1] !in "\r";
  }

  /** One rendered line reads back as its value with the tag's characters stripped from the front. */
  lemma FieldOfLine(tag: string, value: string)
    requires '\r' !in tag && FitsOnLine(value)
    ensures Field(tag + value + "\r", tag) == PyStr.LStrip(value, tag)
  {
    var v := PyStr.LStrip(value, tag);
    assert tag + value + "\r" == tag + (value + "\r");
    LStripTagThenValue(tag, value + "\r");
    LStripThenCr(value, tag);
    assert PyStr.LStrip(tag + value + "\r", tag) == v + "\r";
    PyStr.LStripSpec(value, tag);
    assert v == [] || v[|v| - 1] == value[|value| - 1];
    RStripOneCr(v);
  }

  /**
   * Parsing a rendered descriptor gives back every field, except that each
   * loses its leading characters drawn from its tag's letters.
   */
  lemma ParseRendered(m: Meta)
    requires FitsOnLine(m.lastModifiedDate) && FitsOnLine(m.size) && FitsOnLine(m.zipSize)
    requires FitsOnLine(m.gzSize) && FitsOnLine(m.sha256)
    ensures ParseMeta(Render(m)) == Ok(Meta(PyStr.LStrip(m.lastModifiedDate, DateTag), PyStr.LStrip(m.size, SizeTag),
                                            PyStr.LStrip(m.zipSize, ZipSizeTag), PyStr.LStrip(m.gzSize, GzSizeTag),
                                            PyStr.LStrip(m.sha256, ShaTag)))
  {
    var lines := RenderedLines(m);
    SplitRendered(m);
    assert ParseMeta(Render(m)) == Ok(Meta(Field(lines[0], DateTag), Field(lines[1], SizeTag), Field(lines[2], ZipSizeTag),
                                           Field(lines[3], GzSizeTag), Field(lines[4], ShaTag)));
    RenderedField(m, 0);
    RenderedField(m, 1);
    RenderedField(m, 2);
    RenderedField(m, 3);
    RenderedField(m, 4);
  }

  lemma RenderedField(m: Meta, k: nat)
    requires k < 5 && FitsOnLine(Values(m)[k])
    ensures Field(RenderedLines(m)[k], Tags[k]) == PyStr.LStrip(Values(m)[k], Tags[k])
  {
    FieldOfLine(Tags[k], Values(m)[k]);
  }

  lemma SplitRendered(m: Meta)
    requires FitsOnLine(m.lastModifiedDate) && FitsOnLine(m.size) && FitsOnLine(m.zipSize)
    requires FitsOnLine(m.gzSize) && FitsOnLine(m.sha256)
    ensures PyStr.Split(Render(m), '\n') == RenderedLines(m)
  {
    var lines := RenderedLines(m);
    LineHasNoNewline(DateTag, m.lastModifiedDate);
    LineHasNoNewline(SizeTag, m.size);
    LineHasNoNewline(ZipSizeTag, m.zipSize);
    LineHasNoNewline(GzSizeTag, m.gzSize);
    LineHasNoNewline(ShaTag, m.sha256);
    PyStr.SplitJoin(lines, '\n');
  }

  lemma LineHasNoNewline(tag: string, value: string)
    requires '\n' !in tag && FitsOnLine(value)
    ensures '\n' !in tag + value + "\r"
  {
  }

  /** Round trip: when no field starts with one of its tag's characters, parsing recovers the descriptor exactly. */
  lemma ParseRenderRoundTrip(m: Meta)
    requires Survives(m.lastModifiedDate, DateTag) && Survives(m.size, SizeTag) && Survives(m.zipSize, ZipSizeTag)
    requires Survives(m.gzSize, GzSizeTag) && Survives(m.sha256, ShaTag)
    ensures ParseMeta(Render(m)) == Ok(m)
  {
    ParseRendered(m);
  }

  /** The SHA-256 of the example in the source's own comment loses its leading '6': '6' is a letter of "sha256:". */
  lemma ExampleShaLosesLeadingSix()
    ensures PyStr.LStrip("6" + "4" + "310FE691D08F3BCACAA566249195447543A0AA5F3E61CB5FB6F29DC2C9A06F", ShaTag)
         == "4" + "310FE691D08F3BCACAA566249195447543A0AA5F3E61CB5FB6F29DC2C9A06F"
  {
    var rest := "310FE691D08F3BCACAA566249195447543A0AA5F3E61CB5FB6F29DC2C9A06F";
    assert ("6" + "4" + rest)[1..] == "4" + rest;
  }
}
