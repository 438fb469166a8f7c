/** Which service lists the runtime provenance report (scripts/bench/runtime_provenance.py) is built from, written out:
    every service is the one JSON object that names it and runs a clean image of the expected revision. */
module ImageChecks {
  import opened Sorting
  import opened Wrappers
  import opened Text
  import opened RuntimeProvenance

  predicate LowerHex(s: string, n: nat) { |s| == n && forall k | 0 <= k < n :: s[k] in "0123456789abcdef" }

  /** The whole object: six keys, the revision the expected one, the source not dirty. */
  function Clean(expected: string, name: string, container: string, image: string, created: string): Raw {
    Some(map[Name := Str(name), ContainerId := Str(container), ImageIdField := Str("sha256:" + image),
             Revision := Str(expected), Created := Str(created), SourceDirty := Bool(false)])
  }

  predicate Running(
      expected: string, timestamp: string -> bool, raw: Raw, name: string, container: string, image: string,
      created: string) {
    && raw == Clean(expected, name, container, image, created)
    && name != "" && LowerHex(container, 64) && LowerHex(image, 64) && LowerHex(expected, 40)
    && created != "" && timestamp(created)
  }

  ghost predicate RunsExpected(expected: string, timestamp: string -> bool, raw: Raw) {
    exists name, container, image, created :: Running(expected, timestamp, raw, name, container, image, created)
  }

  lemma HexIsLowerHex(s: string, n: nat)
    ensures Hex(s, n) <==> LowerHex(s, n)
  {
    forall c: char ensures c in "0123456789abcdef" <==> '0' <= c <= '9' || 'a' <= c <= 'f' { HexDigit(c); }
    if Hex(s, n) {
      forall k | 0 <= k < n ensures s[k] in "0123456789abcdef" { assert s[k] in s; }
    }
    if LowerHex(s, n) {
      forall c | c in s ensures '0' <= c <= '9' || 'a' <= c <= 'f' {
        var k :| 0 <= k < n && s[k] == c;
        assert s[k] in "0123456789abcdef";
      }
    }
  }

  lemma HexDigit(c: char)
    ensures c in "0123456789abcdef" <==> '0' <= c <= '9' || 'a' <= c <= 'f'
  {}

  lemma ImageOf(s: string, image: string)
    ensures ImageId(s) && image == s[7..] <==> s == "sha256:" + image && LowerHex(image, 64)
  {
    HexIsLowerHex(image, 64);
    if s == "sha256:" + image { assert s[7..] == image && s[..7] == "sha256:"; }
    if |s| >= 7 { assert s == s[..7] + s[7..]; }
  }

  lemma CleanFits(
      expected: string, timestamp: string -> bool, raw: Raw, name: string, container: string, image: string,
      created: string)
    requires Running(expected, timestamp, raw, name, container, image, created)
    ensures Fits(expected, timestamp, raw)
    ensures NameOf(raw) == name && ContainerOf(raw) == container
    ensures ServiceOf(raw) == Service(container, "sha256:" + image, expected, created, false)
  {
    HexIsLowerHex(container, 64);
    HexIsLowerHex(expected, 40);
    assert ("sha256:" + image)[7..] == image;
    ImageOf("sha256:" + image, image);
  }

  /** A service passes its own checks exactly when it is such an object: an older or a newer revision is refused, and a
      dirty one, an image without its digest, and any other key. */
  lemma FitsExactly(expected: string, timestamp: string -> bool, raw: Raw)
    ensures Fits(expected, timestamp, raw) <==> RunsExpected(expected, timestamp, raw)
  {
    if Fits(expected, timestamp, raw) {
      var f := raw.value;
      assert Revision in f && Name in f && ContainerId in f && ImageIdField in f && Created in f && SourceDirty in f;
      var image := f[ImageIdField].s[7..];
      HexIsLowerHex(f[ContainerId].s, 64);
      HexIsLowerHex(expected, 40);
      ImageOf(f[ImageIdField].s, image);
      var clean := Clean(expected, f[Name].s, f[ContainerId].s, image, f[Created].s);
      assert raw.value.Keys == clean.value.Keys;
      assert raw.value == clean.value;
      assert Running(expected, timestamp, raw, f[Name].s, f[ContainerId].s, image, f[Created].s);
    }
    if RunsExpected(expected, timestamp, raw) {
      var name, container, image, created :| Running(expected, timestamp, raw, name, container, image, created);
      CleanFits(expected, timestamp, raw, name, container, image, created);
    }
  }

  /** Lists are reported exactly when every service runs the expected revision, with its own name and container. */
  lemma AcceptedServicesExactly(expected: string, timestamp: string -> bool, raws: seq<Raw>)
    ensures Acceptable(expected, timestamp, raws) <==>
      && raws != [] && LowerHex(expected, 40)
      && (forall raw | raw in raws :: RunsExpected(expected, timestamp, raw))
      && forall i, j | 0 <= i < j < |raws| ::
           NameOf(raws[i]) != NameOf(raws[j]) && ContainerOf(raws[i]) != ContainerOf(raws[j])
  {
    HexIsLowerHex(expected, 40);
    forall raw ensures FitTest(expected, timestamp)(raw) <==> RunsExpected(expected, timestamp, raw) {
      FitsExactly(expected, timestamp, raw);
    }
    var names, ids := Map(NameOf, raws), Map(ContainerOf, raws);
    if forall i, j | 0 <= i < j < |raws| ::
         NameOf(raws[i]) != NameOf(raws[j]) && ContainerOf(raws[i]) != ContainerOf(raws[j])
    {
      forall i, j | 0 <= i < j < |raws| ensures names[i] != names[j] && ids[i] != ids[j] {}
    }
    if Distinct(names) && Distinct(ids) {
      forall i, j | 0 <= i < j < |raws| ensures NameOf(raws[i]) != NameOf(raws[j])
        ensures ContainerOf(raws[i]) != ContainerOf(raws[j])
      {
        assert names[i] != names[j] && ids[i] != ids[j];
      }
    }
  }

  /** The report writes of each service what its object says, under its name, in the order of the names. */
  lemma ReportSaysSo(
      expected: string, timestamp: string -> bool, raws: seq<Raw>, r: Report, name: string, container: string,
      image: string, created: string)
    requires IsReport(expected, raws, r) && Acceptable(expected, timestamp, raws)
    ensures r.schemaVersion == "dipole.performance.runtime-provenance.v1" && r.expectedRevision == expected
    ensures r.sourceAligned && |r.names| == |raws| && SortedBy(r.names, LexLe)
    ensures
      LowerHex(container, 64) && LowerHex(image, 64) && Clean(expected, name, container, image, created) in raws ==>
      && name in r.names && name in r.services
      && r.services[name] == Service(container, "sha256:" + image, expected, created, false)
  {
    LexIsTotalOrder();
    SortSorts(Map(NameOf, raws), LexLe);
    assert |multiset(r.names)| == |multiset(Map(NameOf, raws))|;
    SortMembers(Map(NameOf, raws), LexLe);
    var raw := Clean(expected, name, container, image, created);
    if raw in raws {
      assert NameOf(raw) == name;
      assert ServiceOf(raw) == Service(container, "sha256:" + image, expected, created, false);
    }
  }
}
