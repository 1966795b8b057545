/**
  The writer side of the script: the file-system-safe form of the product
  name and the path the article is written to. Which characters count as
  alphanumeric is Python's `str.isalnum`, passed in as `isAlnum` because its
  Unicode tables are not reproduced here.
 */
module Writer {
  import opened Text
  import opened Dates

  /** The directory the script creates and writes into. */
  const PostsDir: string := "content/posts"

  /** The extension of every article file. */
  const Extension: string := ".md"

  /** `a` can be obtained from `b` by deleting characters. */
  predicate IsSubsequence(a: string, b: string)
    decreases |b|
  {
    a == [] || (b != [] && ((a[0] == b[0] && IsSubsequence(a[1..], b[1..])) || IsSubsequence(a, b[1..])))
  }

  /**
    `"".join([x for x in name if x.isalnum()])`: every character kept is
    alphanumeric, and the result is no longer than the name.
   */
  function Sanitise(name: string, isAlnum: char -> bool): (r: string)
    ensures forall i :: 0 <= i < |r| ==> isAlnum(r[i])
    ensures |r| <= |name|
    decreases |name|
  {
    if name == [] then []
    else if isAlnum(name[0]) then [name[0]] + Sanitise(name[1..], isAlnum)
    else Sanitise(name[1..], isAlnum)
  }

  /**
    The sanitised name is exactly the alphanumeric characters of the name:
    it keeps them in their original order, it keeps every occurrence of
    each of them, and it keeps nothing else.
   */
  lemma {:induction false} SanitiseKeepsExactlyAlnum(name: string, isAlnum: char -> bool)
    ensures IsSubsequence(Sanitise(name, isAlnum), name)
    ensures forall c :: isAlnum(c) ==> multiset(Sanitise(name, isAlnum))[c] == multiset(name)[c]
    ensures forall c :: !isAlnum(c) ==> c !in Sanitise(name, isAlnum)
    decreases |name|
  {
    if name != [] {
      var rest := Sanitise(name[1..], isAlnum);
      SanitiseKeepsExactlyAlnum(name[1..], isAlnum);
      assert name == [name[0]] + name[1..];
      if isAlnum(name[0]) {
        var r := [name[0]] + rest;
        assert r[1..] == rest;
      }
    }
  }

  /** A name made only of alphanumeric characters is left as it is. */
  lemma {:induction false} SanitiseKeepsAlnum(name: string, isAlnum: char -> bool)
    requires forall i :: 0 <= i < |name| ==> isAlnum(name[i])
    ensures Sanitise(name, isAlnum) == name
    decreases |name|
  {
    if name != [] {
      SanitiseKeepsAlnum(name[1..], isAlnum);
    }
  }

  /** Sanitising a sanitised name changes nothing. */
  lemma SanitiseIdempotent(name: string, isAlnum: char -> bool)
    ensures Sanitise(Sanitise(name, isAlnum), isAlnum) == Sanitise(name, isAlnum)
  {
    SanitiseKeepsAlnum(Sanitise(name, isAlnum), isAlnum);
  }

  /**
    `f"content/posts/{date}-{safe}.md"` with the date in `%Y-%m-%d` form:
    the path lies in the posts directory, carries the date at a fixed
    offset, then a dash, the sanitised name and the extension.
   */
  function PostPath(today: Date, name: string, isAlnum: char -> bool): (r: string)
    requires ValidDate(today)
    ensures |r| == |PostsDir| + 12 + |Sanitise(name, isAlnum)| + |Extension|
    ensures r[..|PostsDir| + 1] == PostsDir + "/"
    ensures r[|PostsDir| + 1..|PostsDir| + 11] == FormatDate(today)
    ensures r[|PostsDir| + 11] == '-'
    ensures r[|PostsDir| + 12..|r| - |Extension|] == Sanitise(name, isAlnum)
    ensures r[|r| - |Extension|..] == Extension
  {
    var safe := Sanitise(name, isAlnum);
    var date := FormatDate(today);
    var r := PostsDir + "/" + date + "-" + safe + Extension;
    assert r[..|PostsDir| + 1] == PostsDir + "/";
    assert r[|PostsDir| + 1..|PostsDir| + 11] == date;
    assert r[|PostsDir| + 12..|r| - |Extension|] == safe;
    r
  }

  /**
    Two paths are the same exactly when they are built on the same day
    for names that sanitise alike.
   */
  lemma PostPathSameFile(d1: Date, n1: string, d2: Date, n2: string, isAlnum: char -> bool)
    requires ValidDate(d1) && ValidDate(d2)
    ensures PostPath(d1, n1, isAlnum) == PostPath(d2, n2, isAlnum)
        <==> d1 == d2 && Sanitise(n1, isAlnum) == Sanitise(n2, isAlnum)
  {
    var p1, p2 := PostPath(d1, n1, isAlnum), PostPath(d2, n2, isAlnum);
    if p1 == p2 {
      FormatDateInjective(d1, d2);
    }
  }

  /**
    When `/` is not alphanumeric (as for Python), nothing after the posts
    directory is a path separator: a product name cannot steer the file
    into another directory.
   */
  lemma PostPathStaysInPostsDir(today: Date, name: string, isAlnum: char -> bool)
    requires ValidDate(today)
    requires !isAlnum('/')
    ensures '/' !in PostPath(today, name, isAlnum)[|PostsDir| + 1..]
  {
    var date, safe := FormatDate(today), Sanitise(name, isAlnum);
    var tail := PostPath(today, name, isAlnum)[|PostsDir| + 1..];
    assert tail == date + "-" + safe + Extension;
    assert '/' !in date by {
      forall i | 0 <= i < |date| ensures date[i] != '/' {
      }
    }
    assert '/' !in safe by {
      forall i | 0 <= i < |safe| ensures safe[i] != '/' {
      }
    }
  }

  /** Python's `isalnum` restricted to ASCII: digits and Latin letters. */
  predicate AsciiAlnum(c: char)
  {
    '0' <= c <= '9' || 'a' <= c <= 'z' || 'A' <= c <= 'Z'
  }

  /** "Cool App!" loses its space and its exclamation mark. */
  lemma SanitiseExample()
    ensures Sanitise("Cool App!", AsciiAlnum) == "CoolApp"
  {
    var name := "Cool App!";
    assert Sanitise(name[8..], AsciiAlnum) == "";
    assert Sanitise(name[7..], AsciiAlnum) == "p";
    assert Sanitise(name[6..], AsciiAlnum) == "pp";
    assert Sanitise(name[5..], AsciiAlnum) == "App";
    assert Sanitise(name[4..], AsciiAlnum) == "App";
    assert Sanitise(name[3..], AsciiAlnum) == "lApp";
    assert Sanitise(name[2..], AsciiAlnum) == "olApp";
    assert Sanitise(name[1..], AsciiAlnum) == "oolApp";
  }

  /** "Cool App!" published on 2024-03-05. */
  lemma PostPathExample()
    ensures PostPath(Date(2024, 3, 5), "Cool App!", AsciiAlnum)
         == PostsDir + "/" + "2024-03-05" + "-" + "CoolApp" + Extension
  {
    SanitiseExample();
    FormatDateExample();
  }
}
