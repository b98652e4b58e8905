/** The keys of the registry's version manifest. */
module RegistryKeys {
  import opened Bytes

  function RoutersKey(zone: string): string { "zones/" + zone + "/routers" }
  function SegmentsKey(zone: string): string { "zones/" + zone + "/segments" }
  function ShardsKey(zone: string): string { "zones/" + zone + "/shards" }
  function ShardSegmentsKey(shard: string): string { "shards/" + shard + "/segments" }

  predicate StartsWith(s: string, p: string) { |p| <= |s| && s[..|p|] == p }
  predicate EndsWith(s: string, p: string) { |p| <= |s| && s[|s| - |p|..] == p }
  predicate Contains(s: string, p: string) { StartsWith(s, p) || (s != [] && Contains(s[1..], p)) }

  lemma {:induction false} ContainsIff(s: string, p: string)
    ensures Contains(s, p) <==> exists i: nat :: i <= |s| && StartsWith(s[i..], p)
  {
    assert s[0..] == s;
    if s != [] {
      ContainsIff(s[1..], p);
      forall i: nat | i < |s| ensures s[1..][i..] == s[i + 1..] {
      }
      if Contains(s[1..], p) {
        var i: nat :| i <= |s[1..]| && StartsWith(s[1..][i..], p);
        assert StartsWith(s[i + 1..], p);
      }
      if i: nat :| i <= |s| && StartsWith(s[i..], p) && i > 0 {
        assert StartsWith(s[1..][i - 1..], p);
      }
    }
  }

  /** The text up to the first slash. */
  function UpToSlash(s: string): (r: string)
    ensures '/' !in r
  {
    if s == [] || s[0] == '/' then [] else [s[0]] + UpToSlash(s[1..])
  }

  /** `split('/')`: the second part of a key whose first part is "zones". */
  function ZoneOf(key: string): Option<string> {
    if StartsWith(key, "zones/") then Some(UpToSlash(key[6..])) else None
  }

  lemma {:induction false} UpToSlashOf(a: string, b: string)
    requires '/' !in a && (b == [] || b[0] == '/')
    ensures UpToSlash(a + b) == a
  {
    if a == [] {
      assert a + b == b;
    } else {
      assert (a + b)[0] == a[0] && (a + b)[1..] == a[1..] + b;
      assert '/' !in a[1..];
      UpToSlashOf(a[1..], b);
    }
  }

  lemma {:induction false} UpToSlashBehind(s: string)
    ensures s == UpToSlash(s) || StartsWith(s, UpToSlash(s) + "/")
  {
    if s == [] || s[0] == '/' {
    } else {
      UpToSlashBehind(s[1..]);
      PrefixBehind([s[0]], s[1..], UpToSlash(s[1..]) + "/");
      assert s == [s[0]] + s[1..];
      assert UpToSlash(s) + "/" == [s[0]] + (UpToSlash(s[1..]) + "/");
    }
  }

  lemma UpToSlashIff(s: string, a: string)
    ensures UpToSlash(s) == a <==> '/' !in a && (s == a || StartsWith(s, a + "/"))
  {
    UpToSlashBehind(s);
    if '/' !in a && (s == a || StartsWith(s, a + "/")) {
      assert s == a + s[|a|..];
      assert s != a ==> s[|a|] == s[..|a| + 1][|a|] == (a + "/")[|a|];
      UpToSlashOf(a, s[|a|..]);
    }
  }

  /** A key built for a zone names that zone, as long as the zone id holds no slash. */
  lemma KeysNameTheirZone(zone: string)
    requires '/' !in zone
    ensures ZoneOf(RoutersKey(zone)) == Some(zone) && ZoneOf(SegmentsKey(zone)) == Some(zone)
  {
    UpToSlashOf(zone, "/routers");
    UpToSlashOf(zone, "/segments");
    assert RoutersKey(zone)[..6] == "zones/" && RoutersKey(zone)[6..] == zone + "/routers";
    assert SegmentsKey(zone)[..6] == "zones/" && SegmentsKey(zone)[6..] == zone + "/segments";
  }

  /** Which keys name a zone, with no mention of how they are split. */
  lemma ZoneOfIff(key: string, zone: string)
    ensures ZoneOf(key) == Some(zone) <==>
              '/' !in zone && (key == "zones/" + zone || StartsWith(key, "zones/" + zone + "/"))
  {
    PrefixOfSum(key, "zones/", zone);
    PrefixOfSum(key, "zones/", zone + "/");
    assert "zones/" + zone + "/" == "zones/" + (zone + "/");
    if StartsWith(key, "zones/") {
      UpToSlashIff(key[6..], zone);
      assert key == "zones/" + key[6..];
      PrefixBehind("zones/", key[6..], zone + "/");
      assert key == "zones/" + zone <==> key[6..] == zone;
    }
  }

  lemma PrefixOfSum(s: string, p: string, q: string)
    ensures s == p + q || StartsWith(s, p + q) ==> StartsWith(s, p)
  {
    assert StartsWith(s, p + q) ==> s[..|p|] == s[..|p + q|][..|p|];
  }

  lemma PrefixBehind(front: string, s: string, p: string)
    ensures StartsWith(front + s, front + p) <==> StartsWith(s, p)
  {
    if StartsWith(s, p) {
      assert (front + s)[..|front + p|] == front + s[..|p|];
    }
    if StartsWith(front + s, front + p) {
      assert (front + s)[|front|..|front + p|] == s[..|p|];
    }
  }

  lemma FramedInjective(front: string, a: string, b: string, back: string)
    requires front + a + back == front + b + back
    ensures a == b
  {
    var s := front + a + back;
    assert |a| == |b|;
    assert s[|front|..|front| + |a|] == a && s[|front|..|front| + |b|] == b;
  }

  /** Keys of different zones or shards differ, and no key is of two kinds. */
  lemma KeysDiffer(a: string, b: string)
    ensures RoutersKey(a) == RoutersKey(b) ==> a == b
    ensures SegmentsKey(a) == SegmentsKey(b) ==> a == b
    ensures ShardsKey(a) == ShardsKey(b) ==> a == b
    ensures ShardSegmentsKey(a) == ShardSegmentsKey(b) ==> a == b
    ensures RoutersKey(a) != SegmentsKey(b) && RoutersKey(a) != ShardsKey(b) && SegmentsKey(a) != ShardsKey(b)
    ensures ShardSegmentsKey(a) !in {RoutersKey(b), SegmentsKey(b), ShardsKey(b)}
  {
    if RoutersKey(a) == RoutersKey(b) { FramedInjective("zones/", a, b, "/routers"); }
    if SegmentsKey(a) == SegmentsKey(b) { FramedInjective("zones/", a, b, "/segments"); }
    if ShardsKey(a) == ShardsKey(b) { FramedInjective("zones/", a, b, "/shards"); }
    if ShardSegmentsKey(a) == ShardSegmentsKey(b) { FramedInjective("shards/", a, b, "/segments"); }
    SecondLast(RoutersKey(a), "zones/" + a, "/routers");
    SecondLast(SegmentsKey(a), "zones/" + a, "/segments");
    SecondLast(SegmentsKey(b), "zones/" + b, "/segments");
    SecondLast(ShardsKey(b), "zones/" + b, "/shards");
    assert ShardSegmentsKey(a)[0] == 's';
    assert RoutersKey(b)[0] == 'z' && SegmentsKey(b)[0] == 'z' && ShardsKey(b)[0] == 'z';
  }

  lemma SecondLast(s: string, front: string, back: string)
    requires s == front + back && |back| >= 2
    ensures |s| >= 2 && s[|s| - 2] == back[|back| - 2]
  {
  }
}
