/** Catalog sources (a country page or a region page), their url keys, and config ids. */
module Sources {
  import opened Wrappers

  datatype Source = Source(fid: string, gid: Option<string>)

  function GidPart(source: Source): string {
    if source.gid.Some? then source.gid.value else "0"
  }

  function UrlKey(source: Source): string {
    source.fid + ":" + GidPart(source)
  }

  /** Every config id starts with the prefix of the page it was read from. */
  function IdPrefix(source: Source): string {
    "lc:" + (UrlKey(source) + ":")
  }

  /** Page identifiers are digit strings upstream; no region is called "0". */
  predicate WellFormed(source: Source) {
    && source.fid != "" && ':' !in source.fid
    && (source.gid.Some? ==> source.gid.value != "" && source.gid.value != "0" && ':' !in source.gid.value)
  }

  lemma FirstColon(x: string, u: string, text: string)
    requires ':' !in x && ':' !in u
    requires x + ":" <= text && u + ":" <= text
    ensures x == u
  {
    assert (x + ":")[|x|] == ':' && (u + ":")[|u|] == ':';
    assert forall i :: 0 <= i < |x| ==> text[i] == x[i] && text[i] != ':';
    assert forall i :: 0 <= i < |u| ==> text[i] == u[i] && text[i] != ':';
    assert text[|x|] == ':' && text[|u|] == ':';
    assert x == text[..|x|] && u == text[..|u|];
  }

  /** Two sources share a url key exactly when they are the same page or one of them is a
      region called "0" of the other's country. */
  lemma UrlKeyCollisions(a: Source, b: Source)
    requires ':' !in a.fid && ':' !in b.fid
    ensures UrlKey(a) == UrlKey(b)
            <==> a == b || (a.fid == b.fid && {a.gid, b.gid} == {None, Some("0")})
  {
    if UrlKey(a) == UrlKey(b) {
      assert a.fid + ":" <= UrlKey(a) && b.fid + ":" <= UrlKey(b);
      FirstColon(a.fid, b.fid, UrlKey(a));
      assert GidPart(a) == UrlKey(a)[|a.fid| + 1..] == GidPart(b);
      assert a == b || (a.gid == None && b.gid == Some("0")) || (b.gid == None && a.gid == Some("0"));
    }
    if a.fid == b.fid && {a.gid, b.gid} == {None, Some("0")} {
      assert a.gid in {None, Some("0")} && b.gid in {None, Some("0")};
    }
  }

  lemma UrlKeyIsInjective(a: Source, b: Source)
    requires WellFormed(a) && WellFormed(b) && UrlKey(a) == UrlKey(b)
    ensures a == b
  {
    UrlKeyCollisions(a, b);
    assert Some("0") !in {a.gid, b.gid};
  }

  /** A config id names the one page it can come from. */
  lemma IdNamesItsSource(id: string, a: Source, b: Source)
    requires WellFormed(a) && WellFormed(b)
    requires IdPrefix(a) <= id && IdPrefix(b) <= id
    ensures a == b
  {
    var text := id[3..];
    assert UrlKey(a) + ":" <= text && UrlKey(b) + ":" <= text;
    FirstColon(a.fid, b.fid, text) by {
      assert a.fid + ":" <= UrlKey(a) + ":" && b.fid + ":" <= UrlKey(b) + ":";
    }
    var rest := text[|a.fid| + 1..];
    assert GidPart(a) + ":" == (UrlKey(a) + ":")[|a.fid| + 1..];
    assert GidPart(b) + ":" == (UrlKey(b) + ":")[|b.fid| + 1..];
    assert GidPart(a) + ":" <= rest && GidPart(b) + ":" <= rest;
    FirstColon(GidPart(a), GidPart(b), rest);
  }
}
