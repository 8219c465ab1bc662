/** Text forms of index members and of a schema's variants field. */
module Members {
  import opened Options

  /** Where `s` first holds `c`, or its length. */
  function FirstIndex(s: string, c: char): (i: nat)
    ensures i <= |s| && c !in s[..i]
    ensures if i < |s| then s[i] == c else c !in s
  {
    if s == [] || s[0] == c then 0
    else
      assert s[..1 + FirstIndex(s[1..], c)] == [s[0]] + s[1..][..FirstIndex(s[1..], c)];
      1 + FirstIndex(s[1..], c)
  }

  /** `str::split_once('=')`. */
  function SplitOnce(s: string): Option<(string, string)> {
    var i := FirstIndex(s, '=');
    if i == |s| then None else Some((s[..i], s[i + 1..]))
  }

  function Joined(left: string, right: string): string {
    left + "=" + right
  }

  /** Splitting undoes joining exactly when the left half holds no `=`. */
  lemma SplitJoined(left: string, right: string)
    ensures SplitOnce(Joined(left, right)) == Some((left, right)) <==> '=' !in left
  {
    var s := Joined(left, right);
    var i := FirstIndex(s, '=');
    assert s[|left|] == '=' && s[..|left|] == left && s[|left| + 1..] == right;
    assert i <= |left| by {
      assert forall j | 0 <= j < i :: s[..i][j] == s[j];
    }
    if i < |left| {
      assert s[i] == left[i];
    }
  }

  // ---- schema ids ----

  const SCHEMA_PREFIX := "sch_"

  predicate IsBase32(c: char) {
    'a' <= c <= 'z' || 'A' <= c <= 'Z' || '2' <= c <= '7'
  }

  /** `SchemaId::parse` accepts: the prefix, then 52 base32 digits that spell 32 bytes. */
  predicate IsSchemaId(s: string) {
    && |s| == 56 && s[..4] == SCHEMA_PREFIX
    && (forall i | 4 <= i < 56 :: IsBase32(s[i]))
    && s[55] in "aAqQ"
  }

  /** Letters count from 0, in either case, and the digits go on. */
  function Base32Digit(c: char): (v: nat)
    requires IsBase32(c)
    ensures v < 32
  {
    if 'a' <= c <= 'z' then c as nat - 'a' as nat
    else if 'A' <= c <= 'Z' then c as nat - 'A' as nat
    else 26 + (c as nat - '2' as nat)
  }

  /** What base32 digits spell as one number. */
  function Base32Number(s: string): nat
    requires forall c | c in s :: IsBase32(c)
  {
    if s == [] then 0
    else
      var n := |s| - 1;
      assert forall d | d in s[..n] :: d in s;
      32 * Base32Number(s[..n]) + Base32Digit(s[n])
  }

  /** A schema id is the prefix and 52 digits, 260 bits, that hold 32 bytes: the last four bits are not set. */
  lemma IdHolds32Bytes(s: string)
    ensures IsSchemaId(s) <==>
      && |s| == 56 && "sch_" <= s
      && (forall c | c in s[4..] :: 'a' <= c <= 'z' || 'A' <= c <= 'Z' || '2' <= c <= '7')
      && Base32Number(s[4..]) % 16 == 0
  {
    if |s| == 56 {
      var digits := s[4..];
      assert forall i | 4 <= i < 56 :: s[i] == digits[i - 4];
      assert forall i | 0 <= i < 52 :: digits[i] == s[i + 4];
      assert digits[51] == s[55];
      if forall c | c in digits :: IsBase32(c) {
        assert forall i | 4 <= i < 56 :: s[i] in digits;
        LastDigit(digits);
      } else {
        var c :| c in digits && !IsBase32(c);
        var i :| 0 <= i < 52 && digits[i] == c;
        assert !IsBase32(s[i + 4]);
      }
    }
  }

  lemma LastDigit(s: string)
    requires s != [] && forall c | c in s :: IsBase32(c)
    ensures Base32Number(s) % 16 == 0 <==> s[|s| - 1] in "aAqQ"
  {
    hide Base32Digit;
    var n := |s| - 1;
    assert forall d | d in s[..n] :: d in s;
    LowBits(Base32Number(s[..n]), Base32Digit(s[n]));
    DigitClear(s[n]);
  }

  lemma LowBits(rest: nat, v: nat)
    ensures (32 * rest + v) % 16 == v % 16
  {
  }

  lemma DigitClear(c: char)
    requires IsBase32(c)
    ensures Base32Digit(c) % 16 == 0 <==> c in "aAqQ"
  {
  }

  function Body(id: string): string {
    if |id| >= 4 && id[..4] == SCHEMA_PREFIX then id[4..] else id
  }

  lemma IdHasNoEquals(id: string)
    requires IsSchemaId(id)
    ensures '=' !in id && '=' !in Body(id) && id == SCHEMA_PREFIX + Body(id)
  {
    forall i | 0 <= i < |id| ensures id[i] != '=' {
      if i < 4 {
        assert id[i] == id[..4][i];
      }
    }
  }

  // ---- members ----

  datatype Variant = Variant(bucket: string, fp: string)

  function VariantMember(fp: string, id: string): string {
    Joined(fp, id)
  }

  function BucketMember(id: string): string {
    Joined(Body(id), id)
  }

  // ---- the variants field ----

  /** The strings of the JSON array. */
  function EncodeVariants(vs: seq<Variant>): (entries: seq<string>)
    ensures |entries| == |vs| && forall i | 0 <= i < |vs| :: entries[i] == Joined(vs[i].bucket, vs[i].fp)
  {
    seq(|vs|, i requires 0 <= i < |vs| => Joined(vs[i].bucket, vs[i].fp))
  }

  /** Entries without `=` are skipped. */
  function DecodeVariants(entries: seq<string>): seq<Variant> {
    if entries == [] then []
    else
      var rest := DecodeVariants(entries[1..]);
      match SplitOnce(entries[0])
      case None => rest
      case Some(pair) => [Variant(pair.0, pair.1)] + rest
  }

  /** What an entry reads back as: its halves around the first `=`. */
  lemma {:induction false} Decoded(entries: seq<string>, v: Variant)
    ensures v in DecodeVariants(entries) <==> '=' !in v.bucket && v.bucket + "=" + v.fp in entries
    decreases |entries|
  {
    if entries != [] {
      Decoded(entries[1..], v);
      var i := FirstIndex(entries[0], '=');
      if i < |entries[0]| {
        assert entries[0] == entries[0][..i] + "=" + entries[0][i + 1..];
      }
      SplitJoined(v.bucket, v.fp);
      assert SplitOnce(entries[0]).Some? ==> '=' in entries[0];
      assert v.bucket + "=" + v.fp == entries[0] ==> entries[0][|v.bucket|] == '=';
      assert entries == [entries[0]] + entries[1..];
    }
  }

  /** The field reads back exactly as written precisely when no bucket key holds `=`. */
  lemma {:induction false} VariantsRoundTrip(vs: seq<Variant>)
    ensures DecodeVariants(EncodeVariants(vs)) == vs <==> forall v | v in vs :: '=' !in v.bucket
  {
    var es := EncodeVariants(vs);
    if vs == [] {
      assert es == [];
    } else {
      VariantsRoundTrip(vs[1..]);
      SplitJoined(vs[0].bucket, vs[0].fp);
      assert es[1..] == EncodeVariants(vs[1..]);
      assert vs == [vs[0]] + vs[1..];
      assert SplitOnce(es[0]).Some? by {
        assert es[0][|vs[0].bucket|] == '=';
      }
      var ds := DecodeVariants(es);
      assert ds[1..] == DecodeVariants(es[1..]);
      if ds == vs {
        assert ds[0] == vs[0] && ds[1..] == vs[1..];
      }
      if forall v | v in vs :: '=' !in v.bucket {
        assert vs[0] in vs;
      }
    }
  }

  // ---- bucket keys ----

  function Decimal(n: nat): string {
    if n < 10 then [('0' as int + n) as char] else Decimal(n / 10) + [('0' as int + n % 10) as char]
  }

  /** `usize::next_power_of_two`, doubling from `p`. */
  function PowerFrom(p: nat, n: nat): nat
    requires p > 0
    decreases if p < n then n - p else 0
  {
    if p >= n then p else PowerFrom(2 * p, n)
  }

  function FieldBand(fields: nat): nat {
    if fields == 0 then 0 else PowerFrom(1, fields)
  }

  /** The band of a field count is the least power of two not below it; 0 only for 0. */
  lemma BandIsLeast(fields: nat)
    ensures FieldBand(fields) == 0 <==> fields == 0
    ensures fields > 0 ==> fields <= FieldBand(fields) < 2 * fields && exists k: nat :: FieldBand(fields) == Power(k)
  {
    if fields > 0 {
      assert Power(0) == 1;
      PowerLeast(0, fields);
    }
  }

  function Power(k: nat): (p: nat)
    ensures p > 0
  {
    if k == 0 then 1 else 2 * Power(k - 1)
  }

  lemma {:induction false} PowerLeast(k: nat, n: nat)
    requires Power(k) < 2 * n
    ensures n <= PowerFrom(Power(k), n) < 2 * n
    ensures exists j: nat :: PowerFrom(Power(k), n) == Power(j)
    decreases if Power(k) < n then n - Power(k) else 0
  {
    if Power(k) < n {
      assert Power(k + 1) == 2 * Power(k);
      PowerLeast(k + 1, n);
    } else {
      assert PowerFrom(Power(k), n) == Power(k);
    }
  }

  /** What hashing the top-level keys yields; only the form of its digits matters here. */
  predicate IsHexDigits(s: string) {
    |s| == 8 && forall i | 0 <= i < 8 :: '0' <= s[i] <= '9' || 'a' <= s[i] <= 'f'
  }

  const INDEX_PREFIX := "deblob:index:"

  /** The keys that the index's own sweeps scan: `deblob:index:*`. */
  predicate InIndex(key: string) {
    INDEX_PREFIX <= key
  }

  /** `bucket_key`, over the first eight hexadecimal digits of the key hash. */
  function BucketKey(fields: nat, depth: nat, keyHash: string): string {
    INDEX_PREFIX + Decimal(FieldBand(fields)) + ":" + Decimal(depth) + ":" + keyHash
  }

  lemma {:induction false} DecimalDigits(n: nat)
    ensures forall c | c in Decimal(n) :: '0' <= c <= '9'
  {
    if n >= 10 {
      DecimalDigits(n / 10);
    }
  }

  /** No bucket key holds `=`, and the sweeps of the index find each. */
  lemma BucketKeyHasNoEquals(fields: nat, depth: nat, keyHash: string)
    requires IsHexDigits(keyHash)
    ensures '=' !in BucketKey(fields, depth, keyHash) && InIndex(BucketKey(fields, depth, keyHash))
  {
    DecimalDigits(FieldBand(fields));
    DecimalDigits(depth);
  }

  /** `band_depth_prefix`, without the closing `*`. */
  function BandDepthPrefix(band: nat, depth: nat): string {
    INDEX_PREFIX + Decimal(band) + ":" + Decimal(depth) + ":"
  }

  lemma CutAt(sep: char, a: string, x: string, b: string, y: string)
    requires sep !in a && sep !in b && a + [sep] + x <= b + [sep] + y
    ensures a == b && x <= y
  {
    var s, t := a + [sep] + x, b + [sep] + y;
    assert forall i | 0 <= i < |s| :: s[i] == t[i];
    assert s[|a|] == sep && t[|b|] == sep;
    assert forall i | 0 <= i < |b| :: t[i] == b[i];
    assert forall i | 0 <= i < |a| :: s[i] == a[i];
    assert s[..|a|] == a && t[..|b|] == b;
    assert s[|a| + 1..] == x && t[|b| + 1..] == y;
  }

  /** The number a text of digits stands for. */
  function DigitsValue(s: string): int {
    if s == [] then 0 else 10 * DigitsValue(s[..|s| - 1]) + (s[|s| - 1] as int - '0' as int)
  }

  /** The text of a number is in digits, reads back as it and has no leading zero. */
  lemma {:induction false} DecimalReads(n: nat)
    ensures Decimal(n) != "" && DigitsValue(Decimal(n)) == n
    ensures forall c | c in Decimal(n) :: '0' <= c <= '9'
    ensures n > 0 ==> Decimal(n)[0] != '0'
  {
    DecimalDigits(n);
    var s := Decimal(n);
    if n >= 10 {
      DecimalReads(n / 10);
      assert s[..|s| - 1] == Decimal(n / 10);
    } else {
      assert s[..|s| - 1] == [];
    }
  }

  lemma {:induction false} DecimalInjective(m: nat, n: nat)
    requires Decimal(m) == Decimal(n)
    ensures m == n
  {
    if m >= 10 && n >= 10 {
      var a, b := Decimal(m), Decimal(n);
      assert a[..|a| - 1] == Decimal(m / 10) && b[..|b| - 1] == Decimal(n / 10);
      DecimalInjective(m / 10, n / 10);
      assert a[|a| - 1] == b[|b| - 1];
    } else if m >= 10 {
      DecimalNotEmpty(m / 10);
    } else if n >= 10 {
      DecimalNotEmpty(n / 10);
    }
  }

  lemma DecimalNotEmpty(n: nat)
    ensures |Decimal(n)| > 0
  {
  }

  /** Scanning by prefix finds exactly the buckets of that band and depth, whatever their keys. */
  lemma PrefixFinds(band: nat, depth: nat, fields: nat, d: nat, keyHash: string)
    ensures BandDepthPrefix(band, depth) <= BucketKey(fields, d, keyHash) <==> band == FieldBand(fields) && depth == d
  {
    hide FieldBand;
    var head := INDEX_PREFIX;
    DecimalDigits(band);
    DecimalDigits(FieldBand(fields));
    DecimalDigits(depth);
    DecimalDigits(d);
    var p, k := BandDepthPrefix(band, depth), BucketKey(fields, d, keyHash);
    var pt, kt := Decimal(band) + ":" + (Decimal(depth) + ":"),
      Decimal(FieldBand(fields)) + ":" + (Decimal(d) + ":" + keyHash);
    assert p == head + pt && k == head + kt;
    if p <= k {
      assert pt == p[|head|..] && kt == k[|head|..];
      assert forall i | 0 <= i < |pt| :: pt[i] == p[|head| + i] && kt[i] == k[|head| + i];
      CutAt(':', Decimal(band), Decimal(depth) + ":", Decimal(FieldBand(fields)), Decimal(d) + ":" + keyHash);
      assert Decimal(depth) + ":" == Decimal(depth) + ":" + "";
      CutAt(':', Decimal(depth), "", Decimal(d), keyHash);
      DecimalInjective(band, FieldBand(fields));
      DecimalInjective(depth, d);
    }
  }

  /** Keys of different bands, depths or key hashes are different. */
  lemma BucketKeyInjective(f1: nat, d1: nat, h1: string, f2: nat, d2: nat, h2: string)
    requires BucketKey(f1, d1, h1) == BucketKey(f2, d2, h2)
    ensures FieldBand(f1) == FieldBand(f2) && d1 == d2 && h1 == h2
  {
    hide FieldBand, Decimal;
    var p := BandDepthPrefix(FieldBand(f1), d1);
    assert BucketKey(f1, d1, h1) == p + h1;
    PrefixFinds(FieldBand(f1), d1, f2, d2, h2);
    assert BucketKey(f2, d2, h2) == p + h2;
    assert h1 == (p + h1)[|p|..] && h2 == (p + h2)[|p|..];
  }
}
