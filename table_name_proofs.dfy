/**
 * When the sites of a network share the mapping table
 * (src/class-database.php:131-135). `get_table` removes every "_<current
 * blog id>" from the prefix, so a base prefix that itself contains such a
 * piece sends that site to another table.
 */
module TableNameProofs {
  import opened MappingStore

  /** `str_replace` does not touch a lone "_" when the needle is longer. */
  lemma StrRemoveLoneUnderscore(needle: string)
    requires |needle| >= 2
    ensures StrRemove("_", needle) == "_"
  {
  }

  /** An occurrence of the needle at the front is dropped and the scan goes on after it. */
  lemma StrRemoveLeadingNeedle(needle: string, rest: string)
    requires needle != []
    ensures StrRemove(needle + rest, needle) == StrRemove(rest, needle)
  {
    assert needle <= needle + rest;
    assert (needle + rest)[|needle|..] == rest;
  }

  /** A string of digits that is no prefix of `c` is no prefix of `c_` either. */
  lemma DigitsNotPrefixed(d: string, c: string)
    requires AllDigits(d) && !(d <= c)
    ensures !(d <= c + "_")
  {
    var t := c + "_";
    if |d| <= |c| {
      assert t[..|d|] == c[..|d|];
    } else if |d| == |t| {
      assert d[|c|] != t[|c|];
    }
  }

  /** A prefix stays a prefix once both lose their first character. */
  lemma PrefixTail(x: string, y: string)
    requires x != []
    ensures x <= y ==> x[1..] <= y[1..]
  {
    if x <= y {
      assert x[1..] == y[1..][..|x| - 1];
    }
  }

  /** Removing an underscore-led needle from `a_c_` keeps it whole when the needle does not start the `_c_` part. */
  lemma StrRemoveKeepsPrefix(a: string, c: string, n: string)
    requires '_' !in a && '_' !in c && |n| >= 2 && n[0] == '_' && !(n <= "_" + (c + "_"))
    ensures StrRemove(a + ("_" + (c + "_")), n) == a + ("_" + (c + "_"))
  {
    StrRemoveSkipsPlainPrefix(a, "_" + (c + "_"), n);
    assert ("_" + (c + "_"))[1..] == c + "_";
    StrRemoveSkipsPlainPrefix(c, "_", n);
    StrRemoveLoneUnderscore(n);
  }

  /** Removing the needle from `a<n>c<n>_` drops both occurrences. */
  lemma StrRemoveCutsTwice(a: string, c: string, n: string)
    requires '_' !in a && '_' !in c && |n| >= 2 && n[0] == '_'
    ensures StrRemove(a + (n + (c + (n + "_"))), n) == a + (c + "_")
  {
    StrRemoveSkipsPlainPrefix(a, n + (c + (n + "_")), n);
    StrRemoveLeadingNeedle(n, c + (n + "_"));
    StrRemoveSkipsPlainPrefix(c, n + "_", n);
    StrRemoveLeadingNeedle(n, "_");
    StrRemoveLoneUnderscore(n);
  }

  /** How the main site's prefix and table name split into pieces. */
  lemma MainPrefixShape(a: string, c: string)
    ensures a + "_" + c + "_" == a + ("_" + (c + "_"))
    ensures a + ("_" + (c + "_")) + "syncs" == a + "_" + c + "_syncs"
  {
  }

  /** How a site's prefix and table name split into pieces. */
  lemma SitePrefixShape(a: string, c: string, d: string)
    ensures a + "_" + d + c + "_" + d + "_" == a + (("_" + d) + (c + (("_" + d) + "_")))
    ensures a + (c + "_") + "syncs" == a + c + "_syncs"
  {
  }

  /**
   * The main site's prefix `a_c_`, with underscore-free `a` and `c` and no
   * "_<main id>" inside, is kept whole: its table is `a_c_syncs`.
   */
  lemma MainPrefixTable(a: string, c: string, main: nat)
    requires '_' !in a && '_' !in c && !(Dec(main) <= c)
    ensures TableName(a + "_" + c + "_", main) == a + "_" + c + "_syncs"
  {
    var n := "_" + Dec(main);
    var t := "_" + (c + "_");
    DigitsNotPrefixed(Dec(main), c);
    PrefixTail(n, t);
    assert n[1..] == Dec(main) && t[1..] == c + "_";
    StrRemoveKeepsPrefix(a, c, n);
    MainPrefixShape(a, c);
  }

  /**
   * Site `blog`'s prefix for a base `a_<blog>c` loses both "_<blog>": the
   * one closing the prefix and the one inside the base, so the site names
   * `ac_syncs`, not the base's own table.
   */
  lemma SitePrefixCutsBase(a: string, c: string, blog: nat)
    requires '_' !in a && '_' !in c
    ensures TableName(a + "_" + Dec(blog) + c + "_" + Dec(blog) + "_", blog) == a + c + "_syncs"
  {
    var d := Dec(blog);
    SitePrefixShape(a, c, d);
    StrRemoveCutsTwice(a, c, "_" + d);
  }

  /**
   * A base prefix that itself contains "_<id>" breaks the sharing: with
   * base "wp_2019", the main site names "wp_2019_syncs" but site 2, while
   * current, names "wp019_syncs".
   */
  lemma BasePrefixWithBlogIdSplitsTable()
    ensures TableName("wp_2019_", 1) == "wp_2019_syncs"
    ensures TableName("wp_2019_2_", 2) == "wp019_syncs"
  {
    MainSiteOfWp2019();
    SiteTwoOfWp2019();
  }

  /** The main site of base "wp_2019" names "wp_2019_syncs". */
  lemma MainSiteOfWp2019()
    ensures TableName("wp_2019_", 1) == "wp_2019_syncs"
  {
    assert Dec(1) == "1";
    assert !("1" <= "2019") by {
      assert "2019"[0] != '1';
    }
    MainPrefixTable("wp", "2019", 1);
    assert "wp" + "_" + "2019" + "_" == "wp_2019_";
    assert "wp" + "_" + "2019" + "_syncs" == "wp_2019_syncs";
  }

  /** Site 2 of base "wp_2019" names "wp019_syncs". */
  lemma SiteTwoOfWp2019()
    ensures TableName("wp_2019_2_", 2) == "wp019_syncs"
  {
    assert Dec(2) == "2";
    SitePrefixCutsBase("wp", "019", 2);
    assert "wp" + "_" + "2" + "019" + "_" + "2" + "_" == "wp_2019_2_";
    assert "wp" + "019" + "_syncs" == "wp019_syncs";
  }
}
