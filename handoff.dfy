/**
 * What the extract step writes and the transform step reads: the page files
 * the extraction stores are exactly files the transformation picks up, and
 * distinct pages never share a file.
 */
module Handoff {
  import Pipeline
  import Transform

  /** Every downloaded page is staged for the transform step. */
  lemma PageFilesAreStaged(page: int)
    ensures Transform.IsStagingFile(Pipeline.PageFileName(page))
  {
    var name := Pipeline.PageFileName(page);
    var prefix := "asteroids_page_" + Pipeline.IntToString(page);
    assert name == prefix + ".json";
    assert name[|name| - 5..] == ".json";
    assert name[0] == 'a';
    assert "progress.json"[0] == 'p';
  }

  /** Decimal rendering is one-to-one on naturals. */
  lemma {:induction false} NatToStringInjective(a: nat, b: nat)
    requires Pipeline.NatToString(a) == Pipeline.NatToString(b)
    ensures a == b
  {
    var sa := Pipeline.NatToString(a);
    var sb := Pipeline.NatToString(b);
    assert sa[|sa| - 1] == (('0' as int) + a % 10) as char;
    assert sb[|sb| - 1] == (('0' as int) + b % 10) as char;
    assert a % 10 == b % 10;
    if a >= 10 && b >= 10 {
      assert sa[..|sa| - 1] == Pipeline.NatToString(a / 10);
      assert sb[..|sb| - 1] == Pipeline.NatToString(b / 10);
      NatToStringInjective(a / 10, b / 10);
    }
  }

  /** Decimal rendering is one-to-one on integers. */
  lemma IntToStringInjective(a: int, b: int)
    requires Pipeline.IntToString(a) == Pipeline.IntToString(b)
    ensures a == b
  {
    var s := Pipeline.IntToString(a);
    if a < 0 {
      assert s[1..] == Pipeline.NatToString(-a) == Pipeline.NatToString(-b);
      NatToStringInjective(-a, -b);
    } else {
      NatToStringInjective(a, b);
    }
  }

  /** Two pages are stored under one file name only when they are the same page. */
  lemma PageFileNameInjective(p: int, q: int)
    requires Pipeline.PageFileName(p) == Pipeline.PageFileName(q)
    ensures p == q
  {
    var n := Pipeline.PageFileName(p);
    var sp := Pipeline.IntToString(p);
    var sq := Pipeline.IntToString(q);
    assert |sp| == |sq|;
    assert sp == n[15..|n| - 5];
    assert sq == n[15..|n| - 5];
    IntToStringInjective(p, q);
  }

  /** Distinct pages are written to distinct paths, so no download of a run overwrites another. */
  lemma PagePathInjective(p: int, q: int)
    requires Pipeline.PagePath(p) == Pipeline.PagePath(q)
    ensures p == q
  {
    var k := |Pipeline.DataDir| + 1;
    assert Pipeline.PagePath(p)[k..] == Pipeline.PageFileName(p);
    assert Pipeline.PagePath(q)[k..] == Pipeline.PageFileName(q);
    PageFileNameInjective(p, q);
  }
}
