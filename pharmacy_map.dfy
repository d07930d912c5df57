/**
 * The address line of a pharmacy on the map page, built from its
 * OpenStreetMap tags.
 */
module PharmacyMap {
  import opened Wrappers
  import opened Text

  /** OpenStreetMap tags; every value is a string. */
  type Tags = map<string, string>

  /** The tags read, in the order they appear in the address. */
  const AddressKeys: seq<string> := ["addr:housenumber", "addr:street", "addr:suburb", "addr:city"]

  const Separator: string := ", "
  const NoAddress: string := "Address not available"

  /** `parts` after the pushes: the non-empty values of `keys`, in order. */
  function Parts(tags: Tags, keys: seq<string>): seq<string> {
    if |keys| == 0 then []
    else
      var k := keys[0];
      (if k in tags && tags[k] != "" then [tags[k]] else []) + Parts(tags, keys[1..])
  }

  /** `buildAddress(tags)`; `None` is an omitted argument, read as `{}`. */
  function BuildAddress(tags: Option<Tags>): string {
    var t := if tags.Some? then tags.value else map[];
    var parts := Parts(t, AddressKeys);
    if |parts| > 0 then Join(parts, Separator) else NoAddress
  }

  /** A part is exactly a non-empty value of one of the keys: nothing is
      invented and no non-empty value is dropped. */
  lemma {:induction false} PartsMembers(tags: Tags, keys: seq<string>, v: string)
    ensures v in Parts(tags, keys) <==> v != "" && exists i :: 0 <= i < |keys| && keys[i] in tags && tags[keys[i]] == v
    decreases |keys|
  {
    if |keys| > 0 {
      PartsMembers(tags, keys[1..], v);
      if exists i :: 0 <= i < |keys| && keys[i] in tags && tags[keys[i]] == v {
        var i :| 0 <= i < |keys| && keys[i] in tags && tags[keys[i]] == v;
        if i > 0 {
          assert keys[1..][i - 1] == keys[i];
        }
      }
      if exists i :: 0 <= i < |keys[1..]| && keys[1..][i] in tags && tags[keys[1..][i]] == v {
        var i :| 0 <= i < |keys[1..]| && keys[1..][i] in tags && tags[keys[1..][i]] == v;
        assert keys[i + 1] == keys[1..][i];
      }
    }
  }

  lemma {:induction false} PartsAppend(tags: Tags, a: seq<string>, b: seq<string>)
    ensures Parts(tags, a + b) == Parts(tags, a) + Parts(tags, b)
    decreases |a|
  {
    if |a| == 0 {
      assert a + b == b;
    } else {
      assert (a + b)[1..] == a[1..] + b;
      PartsAppend(tags, a[1..], b);
    }
  }

  /** The part for a key: its value when present and non-empty, else nothing. */
  function Part(tags: Tags, k: string): seq<string> {
    if k in tags && tags[k] != "" then [tags[k]] else []
  }

  /** The four parts, in the fixed order housenumber, street, suburb, city,
      each present exactly when its tag is non-empty. */
  lemma AddressOrder(tags: Tags)
    ensures Parts(tags, AddressKeys) ==
      Part(tags, "addr:housenumber") + Part(tags, "addr:street") + Part(tags, "addr:suburb") + Part(tags, "addr:city")
  {
    var keys := AddressKeys;
    assert keys == [keys[0]] + ([keys[1]] + ([keys[2]] + [keys[3]]));
    PartsAppend(tags, [keys[0]], [keys[1]] + ([keys[2]] + [keys[3]]));
    PartsAppend(tags, [keys[1]], [keys[2]] + [keys[3]]);
    PartsAppend(tags, [keys[2]], [keys[3]]);
    assert Parts(tags, [keys[3]]) == Part(tags, keys[3]) + Parts(tags, []);
    assert Parts(tags, [keys[2]]) == Part(tags, keys[2]) + Parts(tags, []);
    assert Parts(tags, [keys[1]]) == Part(tags, keys[1]) + Parts(tags, []);
    assert Parts(tags, [keys[0]]) == Part(tags, keys[0]) + Parts(tags, []);
  }

  /** Joining non-empty strings gives a non-empty string. */
  lemma {:induction false} JoinNonEmpty(parts: seq<string>, sep: string)
    requires |parts| > 0 && forall k :: 0 <= k < |parts| ==> parts[k] != ""
    ensures Join(parts, sep) != ""
    ensures |Join(parts, sep)| >= |parts[0]|
  {
    if |parts| > 1 {
      assert |Join(parts, sep)| == |parts[0]| + |sep| + |Join(parts[1..], sep)|;
    }
  }

  /** The address is never empty: the parts joined by ", " when there is at
      least one, and "Address not available" when there is none. */
  lemma AddressNeverEmpty(tags: Option<Tags>)
    ensures BuildAddress(tags) != ""
    ensures var t := if tags.Some? then tags.value else map[];
      (|Parts(t, AddressKeys)| == 0 ==> BuildAddress(tags) == NoAddress)
      && (|Parts(t, AddressKeys)| > 0 ==> BuildAddress(tags) == Join(Parts(t, AddressKeys), Separator))
  {
    var t := if tags.Some? then tags.value else map[];
    var parts := Parts(t, AddressKeys);
    if |parts| > 0 {
      forall k | 0 <= k < |parts| ensures parts[k] != "" {
        PartsMembers(t, AddressKeys, parts[k]);
      }
      JoinNonEmpty(parts, Separator);
    }
  }

  /** `buildAddress(tags)` as the source runs it: four guarded pushes onto
      `parts`, then the join or the placeholder. */
  method BuildAddressByPush(tags: Option<Tags>) returns (address: string)
    ensures address == BuildAddress(tags)
    ensures address != ""
  {
    var t := if tags.Some? then tags.value else map[];
    var parts: seq<string> := [];
    if "addr:housenumber" in t && t["addr:housenumber"] != "" {
      parts := parts + [t["addr:housenumber"]];
    }
    assert parts == Part(t, "addr:housenumber");
    if "addr:street" in t && t["addr:street"] != "" {
      parts := parts + [t["addr:street"]];
    }
    assert parts == Part(t, "addr:housenumber") + Part(t, "addr:street");
    if "addr:suburb" in t && t["addr:suburb"] != "" {
      parts := parts + [t["addr:suburb"]];
    }
    assert parts == Part(t, "addr:housenumber") + Part(t, "addr:street") + Part(t, "addr:suburb");
    if "addr:city" in t && t["addr:city"] != "" {
      parts := parts + [t["addr:city"]];
    }
    assert parts == Part(t, "addr:housenumber") + Part(t, "addr:street") + Part(t, "addr:suburb") + Part(t, "addr:city");
    AddressOrder(t);
    assert parts == Parts(t, AddressKeys);
    AddressNeverEmpty(tags);
    if |parts| > 0 {
      address := Join(parts, Separator);
    } else {
      address := NoAddress;
    }
    assert BuildAddress(tags) == if |Parts(t, AddressKeys)| > 0 then Join(Parts(t, AddressKeys), Separator) else NoAddress;
  }

  /** Omitted tags read as no tags at all. */
  lemma MissingTags()
    ensures BuildAddress(None) == NoAddress
    ensures BuildAddress(None) == BuildAddress(Some(map[]))
  {
    AddressOrder(map[]);
  }
}
