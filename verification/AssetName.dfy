/** Release asset names: the printer of download URLs and the parser of asset names are inverse. */
module AssetName {
  import opened Wrappers
  import opened Text

  datatype Asset = Asset(product: string, version: string, store: string, os: string, arch: string)

  const SUFFIX := ".tar.gz"

  const BASE := "https://github.com/eloqdata/eloqkv/releases/download/"

  function Stem(a: Asset): string { a.product + "-" + a.version + "-" + a.store + "-" + a.os + "-" + a.arch }

  function FileName(a: Asset): string { Stem(a) + SUFFIX }

  /** `release_asset_url` */
  function ReleaseAssetUrl(a: Asset): string { BASE + a.version + "/" + FileName(a) }

  /** How many of the parts make up the product. */
  function ProductLen(parts: seq<string>): nat {
    if |parts| >= 1 && parts[0] == "eloqkv" then 1
    else if |parts| >= 2 && parts[0] == "log" && parts[1] == "service" then 2
    else 0
  }

  function ParseParts(parts: seq<string>): Option<Asset> {
    var n, p := |parts|, ProductLen(parts);
    if n < 5 || p == 0 then None
    else
      var store := Join(parts[p + 1..n - 2], "-");
      if store == "" then None
      else Some(Asset(Join(parts[..p], "-"), parts[p], store, parts[n - 2], parts[n - 1]))
  }

  /** `parse_asset_name` */
  function ParseAssetName(name: string): Option<Asset> {
    match StripSuffix(name, SUFFIX)
    case None => None
    case Some(stem) => ParseParts(Split(stem, {'-'}))
  }

  /** What the parser can give back. */
  ghost predicate IsPrintable(a: Asset) {
    && (a.product == "eloqkv" || a.product == "log-service") && a.store != ""
    && FreeOf(a.version, {'-'}) && FreeOf(a.os, {'-'}) && FreeOf(a.arch, {'-'})
  }

  lemma {:induction false} JoinConcat(a: seq<string>, b: seq<string>, sep: string)
    requires a != [] && b != []
    ensures Join(a + b, sep) == Join(a, sep) + sep + Join(b, sep)
  {
    assert (a + b)[1..] == a[1..] + b;
    if |a| > 1 {
      JoinConcat(a[1..], b, sep);
      assert a[0] + sep + (Join(a[1..], sep) + sep + Join(b, sep))
           == (a[0] + sep + Join(a[1..], sep)) + sep + Join(b, sep);
    } else {
      assert a[1..] + b == b;
    }
  }

  /* ---------- parsing the printed name ---------- */

  lemma TwoParts(a: string, b: string)
    requires FreeOf(a, {'-'}) && FreeOf(b, {'-'})
    ensures Split(a + ['-'] + b, {'-'}) == [a, b]
  {
    SplitAt(a, '-', b, {'-'});
    SplitFree(a, {'-'});
    SplitFree(b, {'-'});
  }

  lemma ProductWords()
    ensures FreeOf("eloqkv", {'-'}) && FreeOf("log", {'-'}) && FreeOf("service", {'-'})
    ensures "log-service" == "log" + ['-'] + "service"
  {
  }

  lemma ProductParts(product: string)
    requires product == "eloqkv" || product == "log-service"
    ensures Split(product, {'-'}) == ["eloqkv"] || Split(product, {'-'}) == ["log", "service"]
  {
    ProductWords();
    if product == "eloqkv" {
      SplitFree(product, {'-'});
    } else {
      TwoParts("log", "service");
    }
  }

  lemma Regroup(a: string, b: string, c: string, d: string, e: string)
    ensures a + "-" + b + "-" + c + "-" + d + "-" + e == a + ['-'] + (b + ['-'] + (c + ['-'] + (d + ['-'] + e)))
  {
    var de, f := d + "-" + e, c + "-" + (d + "-" + e);
    assert c + "-" + d + "-" + e == f;
    assert b + "-" + c + "-" + d + "-" + e == b + "-" + f;
  }

  lemma StemParts(a: Asset)
    requires IsPrintable(a)
    ensures Split(Stem(a), {'-'}) == Split(a.product, {'-'}) + [a.version] + Split(a.store, {'-'}) + [a.os, a.arch]
  {
    var tail3 := a.os + ['-'] + a.arch;
    var tail2 := a.store + ['-'] + tail3;
    var tail1 := a.version + ['-'] + tail2;
    Regroup(a.product, a.version, a.store, a.os, a.arch);
    TwoParts(a.os, a.arch);
    SplitAt(a.store, '-', tail3, {'-'});
    SplitAt(a.version, '-', tail2, {'-'});
    SplitAt(a.product, '-', tail1, {'-'});
    SplitFree(a.version, {'-'});
  }

  lemma PartsParse(product: seq<string>, version: string, store: seq<string>, os: string, arch: string)
    requires (product == ["eloqkv"] || product == ["log", "service"]) && store != [] && Join(store, "-") != ""
    ensures ParseParts(product + [version] + store + [os, arch])
         == Some(Asset(Join(product, "-"), version, Join(store, "-"), os, arch))
  {
    var parts := product + [version] + store + [os, arch];
    var n, p := |parts|, |product|;
    assert parts[0] == product[0] && "eloqkv"[0] != "log"[0];
    assert ProductLen(parts) == p;
    assert parts[..p] == product && parts[p] == version && parts[p + 1..n - 2] == store;
    assert parts[n - 2] == os && parts[n - 1] == arch;
  }

  lemma PrintedIsParsed(a: Asset)
    requires IsPrintable(a)
    ensures ParseAssetName(FileName(a)) == Some(a)
  {
    var name := FileName(a);
    assert name[..|name| - |SUFFIX|] == Stem(a) && name[|name| - |SUFFIX|..] == SUFFIX;
    StemParts(a);
    ProductParts(a.product);
    JoinSplit(a.product, '-');
    JoinSplit(a.store, '-');
    PartsParse(Split(a.product, {'-'}), a.version, Split(a.store, {'-'}), a.os, a.arch);
  }

  /* ---------- printing the parsed name ---------- */

  lemma JoinFive(product: seq<string>, version: string, store: seq<string>, os: string, arch: string)
    requires product != [] && store != []
    ensures Join(product + ([version] + (store + [os, arch])), "-")
         == Join(product, "-") + "-" + version + "-" + Join(store, "-") + "-" + os + "-" + arch
  {
    var last := [os, arch];
    JoinConcat(product, [version] + (store + last), "-");
    JoinConcat([version], store + last, "-");
    JoinConcat(store, last, "-");
    JoinConcat([os], [arch], "-");
    assert last == [os] + [arch];
    Regroup(Join(product, "-"), version, Join(store, "-"), os, arch);
  }

  lemma PartsPrint(parts: seq<string>)
    requires ParseParts(parts).Some?
    ensures Stem(ParseParts(parts).value) == Join(parts, "-")
  {
    var n, p := |parts|, ProductLen(parts);
    var product, store := parts[..p], parts[p + 1..n - 2];
    assert store != [];
    assert parts == product + ([parts[p]] + (store + [parts[n - 2], parts[n - 1]]));
    JoinFive(product, parts[p], store, parts[n - 2], parts[n - 1]);
  }

  lemma PartsArePrintable(parts: seq<string>)
    requires ParseParts(parts).Some? && forall p :: p in parts ==> FreeOf(p, {'-'})
    ensures IsPrintable(ParseParts(parts).value)
  {
    var n, p, a := |parts|, ProductLen(parts), ParseParts(parts).value;
    assert a.version == parts[p] && a.os == parts[n - 2] && a.arch == parts[n - 1];
    assert a.version in parts && a.os in parts && a.arch in parts;
    if p == 1 {
      assert parts[..1] == ["eloqkv"];
    } else {
      assert parts[..2] == ["log", "service"] && ["log", "service"][1..] == ["service"];
      assert "log" + "-" + "service" == "log-service";
    }
  }

  /** Every accepted name prints to itself, and what it was parsed into is printable. */
  lemma ParsedIsPrinted(name: string)
    requires ParseAssetName(name).Some?
    ensures FileName(ParseAssetName(name).value) == name && IsPrintable(ParseAssetName(name).value)
  {
    var stem := StripSuffix(name, SUFFIX).value;
    var parts := Split(stem, {'-'});
    PartsPrint(parts);
    JoinSplit(stem, '-');
    SplitPiecesFree(stem, {'-'});
    PartsArePrintable(parts);
    assert stem + SUFFIX == name;
  }

  /** An asset survives printing and parsing exactly when its product is one of the two, its version, OS
      and architecture hold no dash, and its store is not empty. */
  lemma RoundTripIff(a: Asset)
    ensures ParseAssetName(FileName(a)) == Some(a) <==> IsPrintable(a)
  {
    if IsPrintable(a) { PrintedIsParsed(a); }
    if ParseAssetName(FileName(a)) == Some(a) { ParsedIsPrinted(FileName(a)); }
  }

  /** The download URL: the releases of the repository, then the version, then the file, in which dashes
      part product, version, store, OS and architecture. */
  lemma UrlSegments(a: Asset)
    requires FreeOf(a.version, {'/'}) && FreeOf(FileName(a), {'/'})
    ensures Split(ReleaseAssetUrl(a), {'/'})
         == Split("https://github.com/eloqdata/eloqkv/releases/download", {'/'})
            + [a.version, a.product + "-" + a.version + "-" + a.store + "-" + a.os + "-" + a.arch + ".tar.gz"]
  {
    var site := "https://github.com/eloqdata/eloqkv/releases/download";
    assert BASE == site + "/";
    assert ReleaseAssetUrl(a) == site + ['/'] + (a.version + ['/'] + FileName(a));
    SplitFree(FileName(a), {'/'});
    SplitFree(a.version, {'/'});
    SplitAt(a.version, '/', FileName(a), {'/'});
    SplitAt(site, '/', a.version + ['/'] + FileName(a), {'/'});
  }
}
