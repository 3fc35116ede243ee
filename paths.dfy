/**
 * Locating an import file: the configured sync directory joined to the
 * importer's fixed file name, with every run of slashes collapsed to one
 * (the `preg_replace('#/+#', '/', ...)` of the importers).
 */
module Paths {
  import opened Php
  import opened Errors

  /** No two adjacent slashes. */
  predicate NoDoubleSlash(s: string) {
    |s| <= 1 || (!(s[0] == '/' && s[1] == '/') && NoDoubleSlash(s[1..]))
  }

  /** `NoDoubleSlash` read position by position, in both directions. */
  lemma {:induction false} NoDoubleSlashAt(s: string)
    ensures NoDoubleSlash(s) <==> forall i :: 0 < i < |s| ==> !(s[i - 1] == '/' && s[i] == '/')
  {
    if |s| > 1 {
      NoDoubleSlashAt(s[1..]);
      forall j | 0 < j < |s| - 1 ensures s[1..][j] == s[j + 1] && s[1..][j - 1] == s[j] { }
    }
  }

  /** The characters of `s` other than slashes, in order. */
  function Unslashed(s: string): string
  {
    if s == [] then []
    else if s[0] == '/' then Unslashed(s[1..])
    else [s[0]] + Unslashed(s[1..])
  }

  /** `Unslashed` keeps every character but the slashes: it holds none, and no more characters than `s`. */
  lemma {:induction false} UnslashedHasNoSlash(s: string)
    ensures |Unslashed(s)| <= |s|
    ensures forall i :: 0 <= i < |Unslashed(s)| ==> Unslashed(s)[i] != '/'
  {
    if s != [] {
      UnslashedHasNoSlash(s[1..]);
    }
  }

  /** Replaces every maximal run of `/` in `s` by a single `/`. */
  function CollapseSlashes(s: string): string
  {
    if |s| <= 1 then s
    else if s[0] == '/' && s[1] == '/' then CollapseSlashes(s[1..])
    else [s[0]] + CollapseSlashes(s[1..])
  }

  /** The collapsed string has no doubled slash, is no longer, and starts as `s` does. */
  lemma {:induction false} CollapseShape(s: string)
    ensures NoDoubleSlash(CollapseSlashes(s))
    ensures |CollapseSlashes(s)| <= |s|
    ensures s != [] ==> CollapseSlashes(s) != [] && CollapseSlashes(s)[0] == s[0]
  {
    if |s| > 1 {
      CollapseShape(s[1..]);
      if !(s[0] == '/' && s[1] == '/') {
        var r := [s[0]] + CollapseSlashes(s[1..]);
        assert r[1..] == CollapseSlashes(s[1..]);
      }
    }
  }

  /** Collapsing removes slashes only: every other character is kept, in order. */
  lemma {:induction false} CollapseKeepsContent(s: string)
    ensures Unslashed(CollapseSlashes(s)) == Unslashed(s)
  {
    if |s| > 1 {
      CollapseKeepsContent(s[1..]);
      if !(s[0] == '/' && s[1] == '/') {
        var rest := CollapseSlashes(s[1..]);
        assert ([s[0]] + rest)[0] == s[0] && ([s[0]] + rest)[1..] == rest;
      }
    }
  }

  /** Collapsing changes exactly the strings that hold a doubled slash. */
  lemma {:induction false} CollapseFixpoint(s: string)
    ensures CollapseSlashes(s) == s <==> NoDoubleSlash(s)
  {
    if |s| > 1 {
      CollapseFixpoint(s[1..]);
      if s[0] == '/' && s[1] == '/' {
        // the collapsed string is then shorter than `s`
        CollapseShape(s[1..]);
      }
    }
  }

  /** Collapsing twice gives the same string as collapsing once. */
  lemma CollapseIdempotent(s: string)
    ensures CollapseSlashes(CollapseSlashes(s)) == CollapseSlashes(s)
  {
    CollapseFixpoint(CollapseSlashes(s));
  }

  /**
   * `get_filepath`: the sync directory `basepath` joined to `filename` with
   * `/`, slash runs collapsed; an empty directory setting is an error.
   */
  function GetFilepath(basepath: string, filename: string): (r: Result<string>)
    ensures Empty(basepath) <==> r == Err(NoSyncPath)
    ensures r.Ok? ==> NoDoubleSlash(r.value)
  {
    if Empty(basepath) then Err(NoSyncPath)
    else
      var joined := basepath + "/" + filename;
      CollapseShape(joined);
      Ok(CollapseSlashes(joined))
  }

  lemma {:induction false} UnslashedAppend(a: string, b: string)
    ensures Unslashed(a + b) == Unslashed(a) + Unslashed(b)
  {
    if a != [] {
      assert (a + b)[0] == a[0] && (a + b)[1..] == a[1..] + b;
      UnslashedAppend(a[1..], b);
      if a[0] != '/' {
        assert [a[0]] + (Unslashed(a[1..]) + Unslashed(b)) == ([a[0]] + Unslashed(a[1..])) + Unslashed(b);
      }
    } else {
      assert a + b == b;
    }
  }

  /**
   * The path holds the directory's characters followed by the file name's;
   * only slashes are added or removed.
   */
  lemma FilepathContent(basepath: string, filename: string)
    requires !Empty(basepath)
    ensures GetFilepath(basepath, filename).Ok?
    ensures Unslashed(GetFilepath(basepath, filename).value) == Unslashed(basepath) + Unslashed(filename)
  {
    var f := "/" + filename;
    var joined := basepath + "/" + filename;
    assert f[0] == '/' && f[1..] == filename;
    assert Unslashed(f) == Unslashed(filename);
    assert joined == basepath + f;
    UnslashedAppend(basepath, f);
    CollapseKeepsContent(joined);
    assert GetFilepath(basepath, filename) == Ok(CollapseSlashes(joined));
  }

  /** A prefix without doubled slashes and not ending in one is kept as it is. */
  lemma {:induction false} CollapseKeepsPrefix(a: string, t: string)
    requires NoDoubleSlash(a) && (a != [] ==> a[|a| - 1] != '/')
    ensures CollapseSlashes(a + t) == a + CollapseSlashes(t)
  {
    if a == [] {
      assert a + t == t;
    } else {
      var s, rest := a + t, a[1..];
      if |s| <= 1 {
        assert t == [] && s == a;
      } else {
        assert s[0] == a[0] && s[1..] == rest + t;
        assert !(s[0] == '/' && s[1] == '/') by {
          if rest != [] {
            assert s[1] == a[1];
          }
        }
        assert rest != [] ==> rest[|rest| - 1] == a[|a| - 1];
        CollapseKeepsPrefix(rest, t);
        calc {
          CollapseSlashes(s);
          [a[0]] + CollapseSlashes(rest + t);
          [a[0]] + (rest + CollapseSlashes(t));
          { assert a == [a[0]] + rest; }
          a + CollapseSlashes(t);
        }
      }
    }
  }

  /** `k` slashes in a row. */
  function Slashes(k: nat): (r: string)
    ensures |r| == k && forall i :: 0 <= i < k ==> r[i] == '/'
  {
    if k == 0 then [] else Slashes(k - 1) + "/"
  }

  /** A run of one or more slashes at the front, followed by no slash, becomes one slash. */
  lemma {:induction false} CollapseLeadingRun(k: nat, t: string)
    requires k >= 1 && (t != [] ==> t[0] != '/')
    ensures CollapseSlashes(Slashes(k) + t) == "/" + CollapseSlashes(t)
  {
    var s := Slashes(k) + t;
    if k == 1 {
      assert s == "/" + t;
      if t != [] {
        assert s[1] == t[0] && s[1..] == t;
      }
    } else {
      assert s[0] == '/' && s[1] == '/';
      assert s[1..] == Slashes(k - 1) + t by {
        assert Slashes(k - 1) + "/" == Slashes(k);
        assert Slashes(k)[1..] == Slashes(k - 1);
      }
      CollapseLeadingRun(k - 1, t);
    }
  }

  /**
   * Every run of slashes is replaced by exactly one: after a prefix that is
   * already collapsed and does not end in `/`, a run of `k >= 1` slashes
   * followed by anything but a slash becomes a single `/`.
   */
  lemma CollapseRun(a: string, k: nat, b: string)
    requires NoDoubleSlash(a) && (a != [] ==> a[|a| - 1] != '/')
    requires k >= 1 && (b != [] ==> b[0] != '/')
    ensures CollapseSlashes(a + Slashes(k) + b) == a + "/" + CollapseSlashes(b)
  {
    var run, rest := Slashes(k), CollapseSlashes(b);
    var t := run + b;
    calc {
      CollapseSlashes(a + run + b);
      { assert a + run + b == a + t; }
      CollapseSlashes(a + t);
      { CollapseKeepsPrefix(a, t); }
      a + CollapseSlashes(t);
      { CollapseLeadingRun(k, b); }
      a + ("/" + rest);
      { assert a + ("/" + rest) == a + "/" + rest; }
      a + "/" + rest;
    }
  }

  /**
   * When the directory does not end in `/` and neither part holds a doubled
   * slash or the file name starts with one, the path is the plain join.
   */
  lemma PlainJoin(basepath: string, filename: string)
    requires !Empty(basepath) && basepath[|basepath| - 1] != '/'
    requires NoDoubleSlash(basepath) && NoDoubleSlash(filename)
    requires filename != [] ==> filename[0] != '/'
    ensures GetFilepath(basepath, filename) == Ok(basepath + "/" + filename)
  {
    var f := "/" + filename;
    assert CollapseSlashes(f) == f by {
      assert f[1..] == filename;
      CollapseFixpoint(filename);
    }
    assert basepath + "/" + filename == basepath + f;
    CollapseKeepsPrefix(basepath, f);
  }

  /** A doubled slash in front of a clean file name collapses to one. */
  lemma DoubledSlashName(filename: string)
    requires NoDoubleSlash(filename) && (filename != [] ==> filename[0] != '/')
    ensures CollapseSlashes("//" + filename) == "/" + filename
  {
    var f := "/" + filename;
    assert ("//" + filename)[1..] == f && f[1..] == filename;
    CollapseFixpoint(filename);
    CollapseFixpoint(f);
  }

  /** Two slashes between a clean directory and a clean file name collapse to one. */
  lemma DoubledSeparator(dir: string, filename: string)
    requires dir != [] && dir[|dir| - 1] != '/' && NoDoubleSlash(dir)
    requires NoDoubleSlash(filename) && (filename != [] ==> filename[0] != '/')
    ensures CollapseSlashes(dir + "//" + filename) == dir + "/" + filename
  {
    var t, f := "//" + filename, "/" + filename;
    assert dir + "//" + filename == dir + t;
    assert dir + "/" + filename == dir + f;
    DoubledSlashName(filename);
    CollapseKeepsPrefix(dir, t);
  }

  /**
   * A directory given with one trailing slash joins to a file name without
   * a doubled slash: the separator is not repeated.
   */
  lemma TrailingSlashJoin(basepath: string, dir: string, filename: string)
    requires basepath == dir + "/"
    requires dir != [] && dir[|dir| - 1] != '/' && NoDoubleSlash(dir)
    requires NoDoubleSlash(filename) && (filename != [] ==> filename[0] != '/')
    ensures GetFilepath(basepath, filename) == Ok(dir + "/" + filename)
  {
    assert !Empty(basepath) by {
      assert |basepath| >= 2;
    }
    var joined := basepath + "/" + filename;
    assert joined == dir + "//" + filename;
    DoubledSeparator(dir, filename);
  }
}
