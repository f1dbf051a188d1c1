/**
 * The build-time image optimiser: which responsive variants it plans for an
 * image of a given width, how it names them, and the pieces of the generated
 * `<picture>` component (srcset strings, fallback source, identifier and alt
 * text). The `sharp` resizing and every file read and write are outside the
 * model: an image's width is an input, and a processing error is the absence
 * of one.
 */
module OptimizeImages {

  import opened Wrappers
  import Text
  import ListFilter

  datatype Format = Webp | Jpg

  function FormatName(f: Format): string {
    match f
    case Webp => "webp"
    case Jpg => "jpg"
  }

  /** The configured formats, modern first, and the responsive breakpoints in ascending order. */
  const Formats: seq<Format> := [Webp, Jpg]
  const Sizes: seq<nat> := [320, 640, 768, 1024, 1280, 1920]

  /** One generated file: its format, its target width and its file name. */
  datatype Variant = Variant(format: Format, size: nat, name: string)

  /** `${name}-${size}w.${format}` */
  function OutputName(name: string, size: nat, f: Format): string {
    name + "-" + Text.NatToString(size) + "w." + FormatName(f)
  }

  function MakeVariant(name: string, size: nat, f: Format): Variant {
    Variant(f, size, OutputName(name, size, f))
  }

  /** The variants the inner loop pushes for one size: one per format, in the order of `formats`. */
  function Block(name: string, size: nat, formats: seq<Format>): (block: seq<Variant>)
    ensures |block| == |formats|
    ensures forall j | 0 <= j < |formats| :: block[j] == MakeVariant(name, size, formats[j])
  {
    seq(|formats|, j requires 0 <= j < |formats| => MakeVariant(name, size, formats[j]))
  }

  /** The sizes an image of the given width is resized to: those it is at least as wide as. */
  function Kept(width: int, sizes: seq<nat>): (kept: seq<nat>)
    ensures forall s :: s in kept <==> s in sizes && s <= width
    decreases |sizes|
  {
    if sizes == [] then []
    else
      var rest := Kept(width, sizes[1..]);
      assert forall s :: s in sizes <==> s == sizes[0] || s in sizes[1..];
      (if sizes[0] <= width then [sizes[0]] else []) + rest
  }

  /** Sizes the width admits all stay, in front of whatever follows. */
  lemma {:induction false} KeptPrefix(width: int, a: seq<nat>, b: seq<nat>)
    requires forall i | 0 <= i < |a| :: a[i] <= width
    ensures Kept(width, a + b) == a + Kept(width, b)
    decreases |a|
  {
    if a == [] {
      assert a + b == b;
    } else {
      assert (a + b)[1..] == a[1..] + b;
      KeptPrefix(width, a[1..], b);
    }
  }

  /** What the nested loops push: a block per size the width does not rule out. */
  function Plan(name: string, width: int, sizes: seq<nat>, formats: seq<Format>): seq<Variant>
    decreases |sizes|
  {
    if sizes == [] then []
    else (if width < sizes[0] then [] else Block(name, sizes[0], formats)) + Plan(name, width, sizes[1..], formats)
  }

  lemma {:induction false} PlanConcat(name: string, width: int, a: seq<nat>, b: seq<nat>, formats: seq<Format>)
    ensures Plan(name, width, a + b, formats) == Plan(name, width, a, formats) + Plan(name, width, b, formats)
    decreases |a|
  {
    if a == [] {
      assert a + b == b;
    } else {
      assert (a + b)[1..] == a[1..] + b;
      PlanConcat(name, width, a[1..], b, formats);
    }
  }

  /** The variants planned for an image: none when it could not be processed. */
  function Variants(name: string, width: Option<int>): seq<Variant> {
    if width.None? then [] else Plan(name, width.value, Sizes, Formats)
  }

  /** One more size extends the plan by that size's block, or by nothing when the image is narrower. */
  lemma PlanSnoc(name: string, width: int, sizes: seq<nat>, i: nat, formats: seq<Format>)
    requires i < |sizes|
    ensures Plan(name, width, sizes[..i + 1], formats)
      == Plan(name, width, sizes[..i], formats) + (if width < sizes[i] then [] else Block(name, sizes[i], formats))
  {
    assert sizes[..i + 1] == sizes[..i] + [sizes[i]];
    PlanConcat(name, width, sizes[..i], [sizes[i]], formats);
    assert Plan(name, width, [sizes[i]], formats) == (if width < sizes[i] then [] else Block(name, sizes[i], formats)) + [];
  }

  lemma BlockSnoc(name: string, size: nat, formats: seq<Format>, j: nat)
    requires j < |formats|
    ensures Block(name, size, formats[..j + 1]) == Block(name, size, formats[..j]) + [MakeVariant(name, size, formats[j])]
  {
  }

  /** The nested loops of `generateResponsiveImages` over a size list and a format list. */
  method PlanVariants(name: string, width: int, sizes: seq<nat>, formats: seq<Format>) returns (results: seq<Variant>)
    ensures results == Plan(name, width, sizes, formats)
  {
    results := [];
    for i := 0 to |sizes|
      invariant results == Plan(name, width, sizes[..i], formats)
    {
      var size := sizes[i];
      PlanSnoc(name, width, sizes, i, formats);
      if width < size {
        continue;
      }
      ghost var before := results;
      for j := 0 to |formats|
        invariant results == before + Block(name, size, formats[..j])
      {
        var v := MakeVariant(name, size, formats[j]);
        BlockSnoc(name, size, formats, j);
        assert (before + Block(name, size, formats[..j])) + [v] == before + (Block(name, size, formats[..j]) + [v]);
        results := results + [v];
      }
      assert formats[..|formats|] == formats;
    }
    assert sizes[..|sizes|] == sizes;
  }

  /**
   * `generateResponsiveImages`, planning only: for each configured size the
   * image is at least as wide as, one variant per configured format. A
   * processing error (no width) yields no variants at all.
   */
  method GenerateResponsiveImages(name: string, width: Option<int>) returns (results: seq<Variant>)
    ensures results == Variants(name, width)
  {
    if width.None? {
      return [];
    }
    results := PlanVariants(name, width.value, Sizes, Formats);
  }

  /** With a single format the plan is one variant per kept size, in the order of the sizes. */
  lemma {:induction false} PlanOneFormat(name: string, width: int, sizes: seq<nat>, f: Format)
    ensures var plan := Plan(name, width, sizes, [f]); var kept := Kept(width, sizes);
      |plan| == |kept| && forall k | 0 <= k < |kept| :: plan[k] == MakeVariant(name, kept[k], f)
    decreases |sizes|
  {
    if sizes != [] {
      PlanOneFormat(name, width, sizes[1..], f);
    }
  }

  /** `plan` holds a webp and then a jpg variant for each of `kept`, and nothing else. */
  predicate Paired(plan: seq<Variant>, name: string, kept: seq<nat>) {
    |plan| == 2 * |kept|
    && forall k | 0 <= k < |kept| :: plan[2 * k] == MakeVariant(name, kept[k], Webp)
                                     && plan[2 * k + 1] == MakeVariant(name, kept[k], Jpg)
  }

  lemma PairedCons(name: string, size: nat, kept: seq<nat>, rest: seq<Variant>)
    requires Paired(rest, name, kept)
    ensures Paired([MakeVariant(name, size, Webp), MakeVariant(name, size, Jpg)] + rest, name, [size] + kept)
  {
    var plan := [MakeVariant(name, size, Webp), MakeVariant(name, size, Jpg)] + rest;
    var kept' := [size] + kept;
    forall k | 1 <= k < |kept'|
      ensures plan[2 * k] == MakeVariant(name, kept'[k], Webp) && plan[2 * k + 1] == MakeVariant(name, kept'[k], Jpg)
    {
      assert plan[2 * k] == rest[2 * (k - 1)];
      assert plan[2 * k + 1] == rest[2 * (k - 1) + 1];
    }
  }

  /**
   * With the configured formats every kept size yields a webp variant directly
   * followed by a jpg variant, so the plan is twice as long as the kept sizes.
   */
  lemma {:induction false} PlanPairs(name: string, width: int, sizes: seq<nat>)
    ensures Paired(Plan(name, width, sizes, Formats), name, Kept(width, sizes))
    decreases |sizes|
  {
    if sizes != [] {
      PlanPairs(name, width, sizes[1..]);
      if width >= sizes[0] {
        var block := Block(name, sizes[0], Formats);
        assert block == [MakeVariant(name, sizes[0], Webp), MakeVariant(name, sizes[0], Jpg)];
        PairedCons(name, sizes[0], Kept(width, sizes[1..]), Plan(name, width, sizes[1..], Formats));
      }
    }
  }

  /** Every planned variant has one of the kept sizes. */
  lemma {:induction false} PlanSizes(name: string, width: int, sizes: seq<nat>, formats: seq<Format>)
    ensures forall i | 0 <= i < |Plan(name, width, sizes, formats)| ::
      Plan(name, width, sizes, formats)[i].size in sizes && Plan(name, width, sizes, formats)[i].size <= width
    decreases |sizes|
  {
    if sizes != [] {
      PlanSizes(name, width, sizes[1..], formats);
      var head: seq<Variant> := if width < sizes[0] then [] else Block(name, sizes[0], formats);
      var rest := Plan(name, width, sizes[1..], formats);
      forall i | 0 <= i < |head + rest| ensures (head + rest)[i].size in sizes && (head + rest)[i].size <= width {
        if i >= |head| {
          assert (head + rest)[i] == rest[i - |head|];
          assert rest[i - |head|].size in sizes[1..];
        }
      }
    }
  }

  /** Kept sizes keep the configured order: ascending sizes stay ascending. */
  predicate Ascending(xs: seq<nat>) {
    forall i, j | 0 <= i < j < |xs| :: xs[i] < xs[j]
  }

  lemma {:induction false} KeptAscending(width: int, sizes: seq<nat>)
    requires Ascending(sizes)
    ensures Ascending(Kept(width, sizes))
    decreases |sizes|
  {
    if sizes != [] {
      KeptAscending(width, sizes[1..]);
      var rest := Kept(width, sizes[1..]);
      forall k | 0 <= k < |rest| ensures sizes[0] < rest[k] {
        assert rest[k] in sizes[1..];
      }
    }
  }

  lemma SizesAscending()
    ensures Ascending(Sizes)
  {
  }

  lemma {:induction false} KeptNone(width: int, sizes: seq<nat>)
    requires forall i | 0 <= i < |sizes| :: sizes[i] > width
    ensures Kept(width, sizes) == []
    decreases |sizes|
  {
    if sizes != [] {
      KeptNone(width, sizes[1..]);
    }
  }

  /** An image is planned no variant at all exactly when it is narrower than the smallest breakpoint. */
  lemma NoVariantsIffNarrow(name: string, width: int)
    ensures Plan(name, width, Sizes, Formats) == [] <==> width < 320
  {
    PlanPairs(name, width, Sizes);
    if width >= 320 {
      assert Kept(width, Sizes)[0] == 320;
    } else {
      KeptNone(width, Sizes);
    }
  }

  /** One srcset entry: `/images/optimized/<name> <size>w`. */
  function Entry(v: Variant): string {
    "/images/optimized/" + v.name + " " + Text.NatToString(v.size) + "w"
  }

  function Entries(vs: seq<Variant>): (entries: seq<string>)
    ensures |entries| == |vs|
    ensures forall i | 0 <= i < |vs| :: entries[i] == Entry(vs[i])
  {
    seq(|vs|, i requires 0 <= i < |vs| => Entry(vs[i]))
  }

  function OfFormat(images: seq<Variant>, f: Format): seq<Variant> {
    ListFilter.Filter(images, (v: Variant) => v.format == f)
  }

  /** `generateSrcSet`: the entries of the images of one format, in their order, joined by `", "`. */
  function SrcSet(images: seq<Variant>, f: Format): string {
    Text.Join(Entries(OfFormat(images, f)), ", ")
  }

  lemma BlockOfFormats(name: string, size: nat)
    ensures Block(name, size, Formats) == [MakeVariant(name, size, Webp)] + [MakeVariant(name, size, Jpg)]
  {
  }

  /** Of the two variants planned for one size, selecting a format keeps the one of that format. */
  lemma OfFormatBlock(name: string, size: nat, f: Format)
    ensures OfFormat(Block(name, size, Formats), f) == Block(name, size, [f])
  {
    var p := (v: Variant) => v.format == f;
    var w := MakeVariant(name, size, Webp);
    var j := MakeVariant(name, size, Jpg);
    BlockOfFormats(name, size);
    ListFilter.FilterConcat([w], [j], p);
    ListFilter.FilterOne(w, p);
    ListFilter.FilterOne(j, p);
    assert Block(name, size, [f]) == [MakeVariant(name, size, f)];
  }

  /** Selecting one format from a plan over the configured formats gives the plan for that format alone. */
  lemma {:induction false} OfFormatPlan(name: string, width: int, sizes: seq<nat>, f: Format)
    ensures OfFormat(Plan(name, width, sizes, Formats), f) == Plan(name, width, sizes, [f])
    decreases |sizes|
  {
    if sizes != [] {
      var head: seq<Variant> := if width < sizes[0] then [] else Block(name, sizes[0], Formats);
      ListFilter.FilterConcat(head, Plan(name, width, sizes[1..], Formats), (v: Variant) => v.format == f);
      OfFormatPlan(name, width, sizes[1..], f);
      if width >= sizes[0] {
        OfFormatBlock(name, sizes[0], f);
      }
    }
  }

  /** The srcset a planned image gets for a format, written directly from its kept sizes. */
  function PlannedSrcSet(name: string, kept: seq<nat>, f: Format): string {
    Text.Join(seq(|kept|, k requires 0 <= k < |kept| =>
      "/images/optimized/" + OutputName(name, kept[k], f) + " " + Text.NatToString(kept[k]) + "w"), ", ")
  }

  /** The srcset of a plan lists only the requested format, one entry per kept size, in ascending order. */
  lemma SrcSetOfPlan(name: string, width: int, sizes: seq<nat>, f: Format)
    ensures SrcSet(Plan(name, width, sizes, Formats), f) == PlannedSrcSet(name, Kept(width, sizes), f)
  {
    OfFormatPlan(name, width, sizes, f);
    PlanOneFormat(name, width, sizes, f);
    var kept := Kept(width, sizes);
    assert Entries(Plan(name, width, sizes, [f])) == seq(|kept|, k requires 0 <= k < |kept| =>
      "/images/optimized/" + OutputName(name, kept[k], f) + " " + Text.NatToString(kept[k]) + "w");
  }

  /** `images.find(p)` as an index: the first position satisfying `p`, or -1. */
  function FindIndex(images: seq<Variant>, p: Variant -> bool): (i: int)
    ensures -1 <= i < |images|
    ensures i == -1 <==> forall k | 0 <= k < |images| :: !p(images[k])
    ensures i >= 0 ==> p(images[i]) && forall k | 0 <= k < i :: !p(images[k])
    decreases |images|
  {
    if images == [] then -1
    else if p(images[0]) then 0
    else
      var k := FindIndex(images[1..], p);
      assert forall m | 1 <= m < |images| :: images[m] == images[1..][m - 1];
      if k == -1 then -1 else k + 1
  }

  predicate IsFallbackJpg(v: Variant) {
    v.format == Jpg && v.size == 1024
  }

  /**
   * The `<img>` source: the name of the first 1024-wide jpg, or, when there
   * is none (or its name is empty, which `||` treats as missing), the first
   * image's name; nothing for an empty list.
   */
  function Fallback(images: seq<Variant>): (src: Option<string>)
    ensures images == [] <==> src.None?
    ensures var i := FindIndex(images, IsFallbackJpg);
      i >= 0 && images[i].name != "" ==> src == Some(images[i].name)
    ensures (forall k | 0 <= k < |images| :: !IsFallbackJpg(images[k])) && images != [] ==> src == Some(images[0].name)
  {
    var i := FindIndex(images, IsFallbackJpg);
    if i >= 0 && images[i].name != "" then Some(images[i].name)
    else if images == [] then None
    else Some(images[0].name)
  }

  lemma FindIndexAt(images: seq<Variant>, p: Variant -> bool, i: nat)
    requires i < |images| && p(images[i]) && forall k | 0 <= k < i :: !p(images[k])
    ensures FindIndex(images, p) == i
  {
  }

  lemma SizesSplit()
    ensures Sizes == [320, 640, 768, 1024] + [1280, 1920]
  {
  }

  lemma KeptWide(width: int)
    requires width >= 1024
    ensures var kept := Kept(width, Sizes); |kept| >= 4 && kept[0] == 320 && kept[1] == 640 && kept[2] == 768 && kept[3] == 1024
  {
    SizesSplit();
    KeptPrefix(width, [320, 640, 768, 1024], [1280, 1920]);
  }

  lemma DecimalSizes()
    ensures Text.NatToString(320) == "320" && Text.NatToString(1024) == "1024"
  {
    assert Text.NatToString(3) == "3";
    assert Text.NatToString(32) == "32";
    assert Text.NatToString(1) == "1";
    assert Text.NatToString(10) == "10";
    assert Text.NatToString(102) == "102";
  }

  lemma FallbackAt(images: seq<Variant>, i: nat)
    requires i < |images| && IsFallbackJpg(images[i]) && images[i].name != ""
    requires forall k | 0 <= k < i :: !IsFallbackJpg(images[k])
    ensures Fallback(images) == Some(images[i].name)
  {
    FindIndexAt(images, IsFallbackJpg, i);
  }

  /** A paired plan whose fourth kept size is 1024, after three smaller ones, falls back to that jpg. */
  lemma FallbackOfPaired(plan: seq<Variant>, name: string, kept: seq<nat>)
    requires Paired(plan, name, kept) && |kept| >= 4
    requires kept[0] < 1024 && kept[1] < 1024 && kept[2] < 1024 && kept[3] == 1024
    ensures Fallback(plan) == Some(OutputName(name, 1024, Jpg))
  {
    assert plan[0].size < 1024 && plan[1].size < 1024 && plan[2].size < 1024 && plan[3].size < 1024;
    assert plan[4].size < 1024 && plan[5].size < 1024 && plan[6].format == Webp;
    assert plan[7] == MakeVariant(name, 1024, Jpg);
    FallbackAt(plan, 7);
  }

  /** An image at least 1024 wide falls back to its 1024-wide jpg. */
  lemma FallbackOfWideImage(name: string, width: int)
    requires width >= 1024
    ensures Fallback(Plan(name, width, Sizes, Formats)) == Some(OutputName(name, 1024, Jpg))
  {
    PlanPairs(name, width, Sizes);
    KeptWide(width);
    FallbackOfPaired(Plan(name, width, Sizes, Formats), name, Kept(width, Sizes));
  }

  /** An image narrower than 1024 but not than 320 falls back to its first variant, the smallest webp. */
  lemma FallbackOfNarrowImage(name: string, width: int)
    requires 320 <= width < 1024
    ensures Fallback(Plan(name, width, Sizes, Formats)) == Some(OutputName(name, 320, Webp))
  {
    var plan := Plan(name, width, Sizes, Formats);
    PlanPairs(name, width, Sizes);
    PlanSizes(name, width, Sizes, Formats);
    assert Kept(width, Sizes)[0] == 320;
    assert plan[0] == MakeVariant(name, 320, Webp);
    forall k | 0 <= k < |plan| ensures !IsFallbackJpg(plan[k]) {
      assert plan[k].size <= width;
    }
  }

  /** The names the two fallbacks above take for the generated `feature-icon` and `hero-background` components. */
  lemma GeneratedFallbackNames()
    ensures OutputName("feature-icon", 320, Webp) == "feature-icon-320w.webp"
    ensures OutputName("hero-background", 1024, Jpg) == "hero-background-1024w.jpg"
  {
    DecimalSizes();
  }

  predicate IsAlphanumeric(c: char) {
    'a' <= c <= 'z' || 'A' <= c <= 'Z' || '0' <= c <= '9'
  }

  /** `name.replace(/[^a-zA-Z0-9]/g, '')` */
  function StripNonAlphanumeric(name: string): (stripped: string)
    ensures forall i | 0 <= i < |stripped| :: IsAlphanumeric(stripped[i])
    ensures forall i | 0 <= i < |name| :: IsAlphanumeric(name[i]) ==> name[i] in stripped
  {
    ListFilter.Filter(name, IsAlphanumeric)
  }

  /** Stripping is idempotent: an identifier stripped again is unchanged. */
  lemma StripTwice(name: string)
    ensures StripNonAlphanumeric(StripNonAlphanumeric(name)) == StripNonAlphanumeric(name)
  {
    ListFilter.FilterKeepsAll(StripNonAlphanumeric(name), IsAlphanumeric);
  }

  /** The component's identifier: the stripped name followed by `Image`. */
  function Identifier(name: string): (id: string)
    ensures |id| >= 5 && id[|id| - 5..] == "Image"
    ensures forall i | 0 <= i < |id| - 5 :: IsAlphanumeric(id[i])
  {
    StripNonAlphanumeric(name) + "Image"
  }

  /** `name.replace(/[_-]/g, ' ')` */
  function AltText(name: string): (alt: string)
    ensures |alt| == |name|
    ensures forall i | 0 <= i < |name| :: alt[i] == if name[i] == '_' || name[i] == '-' then ' ' else name[i]
    decreases |name|
  {
    if name == [] then []
    else [if name[0] == '_' || name[0] == '-' then ' ' else name[0]] + AltText(name[1..])
  }

  /** The alt text holds no `_` or `-` and keeps every other character where it was. */
  lemma AltTextHasNoSeparators(name: string)
    ensures '_' !in AltText(name) && '-' !in AltText(name)
  {
    var alt := AltText(name);
    forall i | 0 <= i < |alt| ensures alt[i] != '_' && alt[i] != '-' { }
  }

  lemma StripConcat(a: string, b: string)
    ensures StripNonAlphanumeric(a + b) == StripNonAlphanumeric(a) + StripNonAlphanumeric(b)
  {
    ListFilter.FilterConcat(a, b, IsAlphanumeric);
  }

  lemma StripKeeps(s: string)
    requires forall i | 0 <= i < |s| :: IsAlphanumeric(s[i])
    ensures StripNonAlphanumeric(s) == s
  {
    ListFilter.FilterKeepsAll(s, IsAlphanumeric);
  }

  lemma {:induction false} AltTextConcat(a: string, b: string)
    ensures AltText(a + b) == AltText(a) + AltText(b)
    decreases |a|
  {
    if a == [] {
      assert a + b == b;
    } else {
      assert (a + b)[1..] == a[1..] + b;
      AltTextConcat(a[1..], b);
    }
  }

  lemma AltTextKeeps(s: string)
    requires '_' !in s && '-' !in s
    ensures AltText(s) == s
  {
  }

  /** A hyphenated name such as `feature-icon` loses its hyphen in the identifier: `featureiconImage`. */
  lemma IdentifierOfHyphenated(a: string, b: string)
    requires forall i | 0 <= i < |a| :: IsAlphanumeric(a[i])
    requires forall i | 0 <= i < |b| :: IsAlphanumeric(b[i])
    ensures Identifier(a + "-" + b) == a + b + "Image"
  {
    ListFilter.FilterOne('-', IsAlphanumeric);
    assert StripNonAlphanumeric("-") == [];
    StripKeeps(a);
    StripConcat(a, "-");
    assert StripNonAlphanumeric(a + "-") == a;
    StripKeeps(b);
    StripConcat(a + "-", b);
  }

  /** A hyphenated name such as `feature-icon` gets a space in its alt text: `feature icon`. */
  lemma AltTextOfHyphenated(a: string, b: string)
    requires '_' !in a && '-' !in a && '_' !in b && '-' !in b
    ensures AltText(a + "-" + b) == a + " " + b
  {
    AltTextConcat(a + "-", b);
    AltTextConcat(a, "-");
    AltTextKeeps(a);
    AltTextKeeps(b);
    assert AltText("-") == " ";
  }

  /** The computed parts of the component `generateImageComponent` writes for one image. */
  datatype ImageComponent = ImageComponent(identifier: string, webpSrcSet: string, jpgSrcSet: string,
                                           fallback: Option<string>, alt: string)

  function Component(name: string, images: seq<Variant>): ImageComponent {
    ImageComponent(Identifier(name), SrcSet(images, Webp), SrcSet(images, Jpg), Fallback(images), AltText(name))
  }

  /** The component of a planned image, stated from the kept sizes alone. */
  lemma ComponentOfPlan(name: string, width: int)
    requires width >= 320
    ensures var c := Component(name, Plan(name, width, Sizes, Formats)); var kept := Kept(width, Sizes);
      c.webpSrcSet == PlannedSrcSet(name, kept, Webp) && c.jpgSrcSet == PlannedSrcSet(name, kept, Jpg)
      && c.fallback == Some(if width >= 1024 then OutputName(name, 1024, Jpg) else OutputName(name, 320, Webp))
  {
    SrcSetOfPlan(name, width, Sizes, Webp);
    SrcSetOfPlan(name, width, Sizes, Jpg);
    if width >= 1024 {
      FallbackOfWideImage(name, width);
    } else {
      FallbackOfNarrowImage(name, width);
    }
  }

  /** ASCII lower case, which is all the `i` flag folds for these patterns. */
  function Lower(c: char): char {
    if 'A' <= c <= 'Z' then (c as int + 32) as char else c
  }

  function LowerAll(s: string): (r: string)
    ensures |r| == |s| && forall i | 0 <= i < |s| :: r[i] == Lower(s[i])
  {
    seq(|s|, i requires 0 <= i < |s| => Lower(s[i]))
  }

  /** `s` ends with the lower-case `suffix`, ignoring case. */
  predicate EndsWithIgnoringCase(s: string, suffix: string) {
    |suffix| <= |s| && LowerAll(s[|s| - |suffix|..]) == suffix
  }

  /** `/\.(jpg|jpeg|png|gif)$/i.test(file)` */
  predicate IsImageFile(file: string) {
    EndsWithIgnoringCase(file, ".jpg") || EndsWithIgnoringCase(file, ".jpeg")
    || EndsWithIgnoringCase(file, ".png") || EndsWithIgnoringCase(file, ".gif")
  }

  lemma LowerTwice(s: string)
    ensures LowerAll(LowerAll(s)) == LowerAll(s)
  {
  }

  /** Matching a suffix while ignoring case does not depend on the name's case. */
  lemma EndsWithLowered(file: string, suffix: string)
    ensures EndsWithIgnoringCase(LowerAll(file), suffix) == EndsWithIgnoringCase(file, suffix)
  {
    if |suffix| <= |file| {
      var n := |file| - |suffix|;
      assert LowerAll(file)[n..] == LowerAll(file[n..]);
      LowerTwice(file[n..]);
    }
  }

  /** The filter ignores case: lower-casing a file name does not change whether it is kept. */
  lemma IsImageFileIgnoresCase(file: string)
    ensures IsImageFile(LowerAll(file)) == IsImageFile(file)
  {
    EndsWithLowered(file, ".jpg");
    EndsWithLowered(file, ".jpeg");
    EndsWithLowered(file, ".png");
    EndsWithLowered(file, ".gif");
  }

  function ImageFiles(files: seq<string>): (images: seq<string>)
    ensures forall f :: f in images <==> f in files && IsImageFile(f)
  {
    ListFilter.Filter(files, IsImageFile)
  }

  /** Position of the last `c` in `s`, or -1. */
  function LastIndexOf(s: string, c: char): (i: int)
    ensures -1 <= i < |s|
    ensures i >= 0 ==> s[i] == c && forall k | i < k < |s| :: s[k] != c
    ensures i == -1 ==> c !in s
    decreases |s|
  {
    if s == [] then -1
    else if s[|s| - 1] == c then |s| - 1
    else
      var k := LastIndexOf(s[..|s| - 1], c);
      assert forall m | 0 <= m < |s| - 1 :: s[..|s| - 1][m] == s[m];
      k
  }

  /** `path.extname(file)`: from the last dot to the end, unless that dot starts the name. */
  function ExtName(file: string): (ext: string)
    ensures |ext| < |file| || ext == []
    ensures ext != [] ==> ext[0] == '.' && file[|file| - |ext|..] == ext && '.' !in ext[1..]
  {
    var i := LastIndexOf(file, '.');
    if i <= 0 then []
    else
      assert forall k | 0 <= k < |file[i..]| - 1 :: file[i..][1..][k] == file[i + 1 + k];
      file[i..]
  }

  /**
   * `getFileInfo` as written: the extension is lower-cased and then handed to
   * `path.basename`, which strips it only on an exact, case-sensitive match.
   */
  function BaseNameAsWritten(file: string): string {
    var ext := LowerAll(ExtName(file));
    if |ext| > 0 && |ext| <= |file| && file[|file| - |ext|..] == ext then file[..|file| - |ext|] else file
  }

  /** An upper-case extension passes the filter but stays in the name the script derives. */
  lemma UpperCaseExtensionKept()
    ensures IsImageFile("photo.JPG")
    ensures BaseNameAsWritten("photo.JPG") == "photo.JPG"
    ensures BaseName("photo.JPG") == "photo"
  {
    assert LastIndexOf("photo.JPG", '.') == 5;
    assert ExtName("photo.JPG") == ".JPG";
    assert LowerAll(".JPG") == ".jpg";
  }

  /** The intended name: the file name without its extension, whatever the extension's case. */
  function BaseName(file: string): (name: string)
    ensures name + ExtName(file) == file
    ensures ExtName(file) != [] ==> |name| > 0
  {
    file[..|file| - |ExtName(file)|]
  }

  /** The two agree whenever the extension is already lower case. */
  lemma AsWrittenAgreesOnLowerCase(file: string)
    requires LowerAll(ExtName(file)) == ExtName(file)
    ensures BaseNameAsWritten(file) == BaseName(file)
  {
  }

  /** An image whose variants were generated, as `allResults` records it. */
  datatype Processed = Processed(original: string, images: seq<Variant>)

  /** Widths the images could be read with; a file missing here failed to process. */
  function WidthOf(widths: map<string, int>, file: string): Option<int> {
    if file in widths then Some(widths[file]) else None
  }

  /**
   * The images of `files` that produced at least one variant, in order, each
   * recorded under the name `nameOf` derives from its file name.
   */
  function Optimized(files: seq<string>, widths: map<string, int>, nameOf: string -> string): (all: seq<Processed>)
    ensures forall i | 0 <= i < |all| :: |all[i].images| > 0
    decreases |files|
  {
    if files == [] then []
    else
      var file := files[|files| - 1];
      var images := Variants(nameOf(file), WidthOf(widths, file));
      Optimized(files[..|files| - 1], widths, nameOf) + (if |images| > 0 then [Processed(nameOf(file), images)] else [])
  }

  /** Two ways of naming the files that agree on every file give the same records. */
  lemma {:induction false} OptimizedNamesAgree(files: seq<string>, widths: map<string, int>, nameA: string -> string, nameB: string -> string)
    requires forall i | 0 <= i < |files| :: nameA(files[i]) == nameB(files[i])
    ensures Optimized(files, widths, nameA) == Optimized(files, widths, nameB)
    decreases |files|
  {
    if files != [] {
      var prefix := files[..|files| - 1];
      assert forall i | 0 <= i < |prefix| :: prefix[i] == files[i];
      OptimizedNamesAgree(prefix, widths, nameA, nameB);
    }
  }

  /** When every extension is already lower case, the script's records carry the intended names. */
  lemma LowerCaseExtensionsAsIntended(files: seq<string>, widths: map<string, int>)
    requires forall i | 0 <= i < |files| :: LowerAll(ExtName(files[i])) == ExtName(files[i])
    ensures Optimized(files, widths, BaseNameAsWritten) == Optimized(files, widths, BaseName)
  {
    forall i | 0 <= i < |files|
      ensures BaseNameAsWritten(files[i]) == BaseName(files[i])
    {
      AsWrittenAgreesOnLowerCase(files[i]);
    }
    OptimizedNamesAgree(files, widths, BaseNameAsWritten, BaseName);
  }

  lemma OptimizedOne(file: string, widths: map<string, int>, nameOf: string -> string)
    ensures var images := Variants(nameOf(file), WidthOf(widths, file));
      Optimized([file], widths, nameOf) == if |images| > 0 then [Processed(nameOf(file), images)] else []
  {
    assert [file][..0] == [];
  }

  /** `photo.JPG` is recorded as `photo.JPG` by the script, and as `photo` under the intended name. */
  lemma UpperCaseExtensionRecorded()
    ensures Optimized(["photo.JPG"], map["photo.JPG" := 1024], BaseNameAsWritten)
      == [Processed("photo.JPG", Variants("photo.JPG", Some(1024)))]
    ensures Optimized(["photo.JPG"], map["photo.JPG" := 1024], BaseName)
      == [Processed("photo", Variants("photo", Some(1024)))]
  {
    var widths := map["photo.JPG" := 1024];
    assert WidthOf(widths, "photo.JPG") == Some(1024);
    UpperCaseExtensionKept();
    OmittedIffFailedOrNarrow("photo.JPG", Some(1024));
    OmittedIffFailedOrNarrow("photo", Some(1024));
    OptimizedOne("photo.JPG", widths, BaseNameAsWritten);
    OptimizedOne("photo.JPG", widths, BaseName);
  }

  /** An image is left out of the results exactly when it failed to process or is narrower than 320. */
  lemma OmittedIffFailedOrNarrow(name: string, width: Option<int>)
    ensures Variants(name, width) == [] <==> width.None? || width.value < 320
  {
    if width.Some? {
      NoVariantsIffNarrow(name, width.value);
    }
  }

  function Components(all: seq<Processed>): (components: seq<ImageComponent>)
    ensures |components| == |all|
    ensures forall i | 0 <= i < |all| :: components[i] == Component(all[i].original, all[i].images)
  {
    seq(|all|, i requires 0 <= i < |all| => Component(all[i].original, all[i].images))
  }

  lemma ComponentsAppend(all: seq<Processed>, p: Processed)
    ensures Components(all + [p]) == Components(all) + [Component(p.original, p.images)]
  {
  }

  /** One more file adds its record exactly when it has variants. */
  lemma OptimizedStep(files: seq<string>, widths: map<string, int>, nameOf: string -> string, i: nat)
    requires i < |files|
    ensures var name := nameOf(files[i]); var images := Variants(name, WidthOf(widths, files[i]));
      Optimized(files[..i + 1], widths, nameOf)
        == Optimized(files[..i], widths, nameOf) + (if |images| > 0 then [Processed(name, images)] else [])
  {
    assert files[..i + 1][..i] == files[..i];
  }

  /**
   * The main loop of `optimizeImages`: every image file is planned, and those
   * with variants are recorded with their component. No image files means no
   * results (the script then only creates its sample images). Each image is
   * named by `getFileInfo` as written, so an upper-case extension stays in
   * its name.
   */
  method OptimizeAll(files: seq<string>, widths: map<string, int>) returns (all: seq<Processed>, components: seq<ImageComponent>)
    ensures all == Optimized(ImageFiles(files), widths, BaseNameAsWritten)
    ensures components == Components(all)
  {
    var imageFiles := ImageFiles(files);
    all := [];
    components := [];
    if |imageFiles| == 0 {
      return;
    }
    for i := 0 to |imageFiles|
      invariant all == Optimized(imageFiles[..i], widths, BaseNameAsWritten)
      invariant components == Components(all)
    {
      var file := imageFiles[i];
      var name := BaseNameAsWritten(file);
      var results := GenerateResponsiveImages(name, WidthOf(widths, file));
      OptimizedStep(imageFiles, widths, BaseNameAsWritten, i);
      if |results| > 0 {
        ComponentsAppend(all, Processed(name, results));
        all := all + [Processed(name, results)];
        components := components + [Component(name, results)];
      }
    }
    assert imageFiles[..|imageFiles|] == imageFiles;
  }
}
