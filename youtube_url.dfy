/**
 * The YouTube URL recogniser used by iframe discovery: the case-insensitive
 * pattern `^https?://(?:www\.)?youtube(?:-nocookie)?\.com(/|$)`, written as a
 * hand-made matcher over strings and proved equal to an enumeration of the
 * eight host prefixes it admits.
 *
 * A JavaScript regular expression with the `i` flag and without the `u` flag
 * folds case by upper-casing, but never maps a non-ASCII character onto an
 * ASCII one; since every letter of the pattern is ASCII, folding the ASCII
 * letters A-Z is exactly what the source does.
 */
module YouTubeUrl {

  /** ASCII lower-casing: A-Z become a-z, every other character is kept. */
  function Lower(c: char): (r: char)
    ensures 'A' <= c <= 'Z' ==> 'a' <= r <= 'z'
    ensures !('A' <= c <= 'Z') ==> r == c
  {
    if 'A' <= c <= 'Z' then (c as int + 32) as char else c
  }

  /** `s` begins with `p`, comparing letters without regard to case. */
  predicate StartsWithCI(s: string, p: string)
  {
    |p| <= |s| && forall i :: 0 <= i < |p| ==> Lower(s[i]) == Lower(p[i])
  }

  /** Consumes an optional literal, greedily, as `(?:p)?` does. */
  function SkipOptional(s: string, p: string): (r: string)
    ensures StartsWithCI(s, p) ==> r == s[|p|..]
    ensures !StartsWithCI(s, p) ==> r == s
  {
    if StartsWithCI(s, p) then s[|p|..] else s
  }

  /**
   * The recogniser, one stage per piece of the pattern: `http`, an optional
   * `s`, `://`, an optional `www.`, `youtube`, an optional `-nocookie`,
   * `.com`, and then the end of the string or a `/`.
   */
  predicate IsYouTubeUrl(s: string)
  {
    StartsWithCI(s, "http") && AfterHttp(s[4..])
  }

  /** What may follow `http`: an optional `s`, then `://` and the host. */
  predicate AfterHttp(t: string)
  {
    var u := SkipOptional(t, "s");
    StartsWithCI(u, "://") && AfterSeparator(u[3..])
  }

  /** What may follow `://`: an optional `www.`, then `youtube` and the rest of the host. */
  predicate AfterSeparator(t: string)
  {
    var u := SkipOptional(t, "www.");
    StartsWithCI(u, "youtube") && AfterName(u[7..])
  }

  /** What may follow `youtube`: an optional `-nocookie`, then `.com` and a boundary. */
  predicate AfterName(t: string)
  {
    var u := SkipOptional(t, "-nocookie");
    StartsWithCI(u, ".com") && AtBoundary(u[4..])
  }

  /** The group `(/|$)`: nothing is left, or a path begins. */
  predicate AtBoundary(t: string)
  {
    t == [] || t[0] == '/'
  }

  // ---------------------------------------------------------------------
  // Reference definition: the eight prefixes the pattern admits.
  // ---------------------------------------------------------------------

  /** The three optional parts of the pattern, each present or absent. */
  datatype Shape = Shape(secure: bool, www: bool, nocookie: bool)

  /** `p` when the optional part is present, nothing otherwise. */
  function Opt(present: bool, p: string): string
  {
    if present then p else ""
  }

  function NameTail(nocookie: bool): string
  {
    Opt(nocookie, "-nocookie") + ".com"
  }

  function HostTail(www: bool, nocookie: bool): string
  {
    Opt(www, "www.") + ("youtube" + NameTail(nocookie))
  }

  function SchemeTail(shape: Shape): string
  {
    Opt(shape.secure, "s") + ("://" + HostTail(shape.www, shape.nocookie))
  }

  /** The host prefix a shape spells out, e.g. `https://www.youtube-nocookie.com`. */
  function Prefix(shape: Shape): string
  {
    "http" + SchemeTail(shape)
  }

  /** `t` starts with `p`, case aside, and `p` is followed by `/` or by nothing. */
  predicate MatchesAt(t: string, p: string)
  {
    StartsWithCI(t, p) && AtBoundary(t[|p|..])
  }

  predicate MatchesShape(s: string, shape: Shape)
  {
    MatchesAt(s, Prefix(shape))
  }

  // ---------------------------------------------------------------------
  // The recogniser agrees with the reference definition.
  // ---------------------------------------------------------------------

  /** Case-insensitive prefix matching splits along a concatenated pattern. */
  lemma StartsWithConcat(s: string, p: string, q: string)
    ensures StartsWithCI(s, p + q) <==> StartsWithCI(s, p) && StartsWithCI(s[|p|..], q)
  {
    if StartsWithCI(s, p) && StartsWithCI(s[|p|..], q) {
      forall i | 0 <= i < |p + q| ensures Lower(s[i]) == Lower((p + q)[i]) {
        if i >= |p| {
          assert s[|p|..][i - |p|] == s[i];
        }
      }
    }
    if StartsWithCI(s, p + q) {
      forall i | 0 <= i < |q| ensures Lower(s[|p|..][i]) == Lower(q[i]) {
        assert (p + q)[|p| + i] == q[i];
      }
    }
  }

  /** A bounded match of `p + q` is `p` followed by a bounded match of `q`. */
  lemma MatchesAtConcat(t: string, p: string, q: string)
    ensures MatchesAt(t, p + q) <==> StartsWithCI(t, p) && MatchesAt(t[|p|..], q)
  {
    StartsWithConcat(t, p, q);
    if StartsWithCI(t, p) && |p| + |q| <= |t| {
      assert t[|p|..][|q|..] == t[|p + q|..];
    }
  }

  /**
   * A greedy optional part `(?:p)?` before `q` never needs backtracking
   * when `p` and `q` begin with different letters: the match of
   * `Opt(present, p) + q` exists exactly when the greedy step chose
   * `present` and what is left matches `q`.
   */
  lemma OptionalMatch(t: string, p: string, present: bool, q: string)
    requires |p| > 0 && |q| > 0 && Lower(p[0]) != Lower(q[0])
    ensures MatchesAt(t, Opt(present, p) + q) <==>
              present == StartsWithCI(t, p) && MatchesAt(SkipOptional(t, p), q)
  {
    MatchesAtConcat(t, Opt(present, p), q);
    if !present {
      assert t[|Opt(present, p)|..] == t;
      if MatchesAt(t, q) {
        assert Lower(t[0]) == Lower(q[0]);
      }
    }
  }

  lemma {:induction false} NameStage(t: string)
    ensures AfterName(t) <==> exists nocookie :: MatchesAt(t, NameTail(nocookie))
  {
    if AfterName(t) {
      var nocookie := StartsWithCI(t, "-nocookie");
      OptionalMatch(t, "-nocookie", nocookie, ".com");
      assert MatchesAt(t, NameTail(nocookie));
    }
    if exists nocookie :: MatchesAt(t, NameTail(nocookie)) {
      var nocookie :| MatchesAt(t, NameTail(nocookie));
      OptionalMatch(t, "-nocookie", nocookie, ".com");
    }
  }

  lemma {:induction false} HostStage(t: string)
    ensures AfterSeparator(t) <==> exists www, nocookie :: MatchesAt(t, HostTail(www, nocookie))
  {
    var u := SkipOptional(t, "www.");
    if AfterSeparator(t) {
      var www := StartsWithCI(t, "www.");
      NameStage(u[7..]);
      var nocookie :| MatchesAt(u[7..], NameTail(nocookie));
      MatchesAtConcat(u, "youtube", NameTail(nocookie));
      OptionalMatch(t, "www.", www, "youtube" + NameTail(nocookie));
      assert MatchesAt(t, HostTail(www, nocookie));
    }
    if exists www, nocookie :: MatchesAt(t, HostTail(www, nocookie)) {
      var www, nocookie :| MatchesAt(t, HostTail(www, nocookie));
      OptionalMatch(t, "www.", www, "youtube" + NameTail(nocookie));
      MatchesAtConcat(u, "youtube", NameTail(nocookie));
      NameStage(u[7..]);
    }
  }

  lemma {:induction false} SchemeStageForward(t: string) returns (shape: Shape)
    requires AfterHttp(t)
    ensures MatchesAt(t, SchemeTail(shape))
  {
    var u := SkipOptional(t, "s");
    var secure := StartsWithCI(t, "s");
    HostStage(u[3..]);
    var www, nocookie :| MatchesAt(u[3..], HostTail(www, nocookie));
    MatchesAtConcat(u, "://", HostTail(www, nocookie));
    OptionalMatch(t, "s", secure, "://" + HostTail(www, nocookie));
    shape := Shape(secure, www, nocookie);
  }

  lemma {:induction false} SchemeStageBackward(t: string, shape: Shape)
    requires MatchesAt(t, SchemeTail(shape))
    ensures AfterHttp(t)
  {
    var u := SkipOptional(t, "s");
    var host := HostTail(shape.www, shape.nocookie);
    OptionalMatch(t, "s", shape.secure, "://" + host);
    assert MatchesAt(u, "://" + host);
    MatchesAtConcat(u, "://", host);
    assert StartsWithCI(u, "://") && MatchesAt(u[3..], host);
    HostStage(u[3..]);
  }

  /**
   * The recogniser accepts a string exactly when it starts, letter case
   * aside, with one of the eight host prefixes followed by `/` or by nothing.
   */
  lemma {:induction false} IsYouTubeUrlSpec(s: string)
    ensures IsYouTubeUrl(s) <==> exists shape :: MatchesShape(s, shape)
  {
    if IsYouTubeUrl(s) {
      var shape := SchemeStageForward(s[4..]);
      MatchesAtConcat(s, "http", SchemeTail(shape));
      assert MatchesShape(s, shape);
    }
    if exists shape :: MatchesShape(s, shape) {
      var shape :| MatchesShape(s, shape);
      MatchesAtConcat(s, "http", SchemeTail(shape));
      SchemeStageBackward(s[4..], shape);
    }
  }

  /** Two strings that differ only in the case of ASCII letters are accepted alike. */
  lemma {:induction false} IsYouTubeUrlIgnoresCase(s: string, t: string)
    requires |s| == |t| && forall i :: 0 <= i < |s| ==> Lower(s[i]) == Lower(t[i])
    ensures IsYouTubeUrl(s) <==> IsYouTubeUrl(t)
  {
    forall shape ensures MatchesShape(s, shape) <==> MatchesShape(t, shape) {
      var p := Prefix(shape);
      if |p| < |s| {
        assert s[|p|..][0] == s[|p|] && t[|p|..][0] == t[|p|];
      }
    }
    IsYouTubeUrlSpec(s);
    IsYouTubeUrlSpec(t);
  }

  /** A typical embed URL is accepted. */
  lemma AcceptsEmbedUrl()
    ensures IsYouTubeUrl("https://www.youtube.com/embed/abc")
  {
    var s := "https://www.youtube.com/embed/abc";
    assert MatchesShape(s, Shape(true, true, false));
    IsYouTubeUrlSpec(s);
  }

  /** The prefix spelt by a shape does not match the look-alike URL below. */
  lemma LookAlikeMismatch(shape: Shape)
    ensures !MatchesShape("https://www.youtube.com.example.org/", shape)
  {
    var s := "https://www.youtube.com.example.org/";
    var p := Prefix(shape);
    if !shape.secure {
      assert p[4] == ':' && Lower(s[4]) != Lower(p[4]);
    } else if !shape.www {
      assert p[8] == 'y' && Lower(s[8]) != Lower(p[8]);
    } else if shape.nocookie {
      assert p[19] == '-' && Lower(s[19]) != Lower(p[19]);
    } else {
      assert |p| == 23 && s[|p|..][0] == s[23];
    }
  }

  /** A host that only begins with `youtube.com` is rejected: `.com` must end the host. */
  lemma RejectsLookAlikeHost()
    ensures !IsYouTubeUrl("https://www.youtube.com.example.org/")
  {
    forall shape {
      LookAlikeMismatch(shape);
    }
    IsYouTubeUrlSpec("https://www.youtube.com.example.org/");
  }
}
