/** Scrubbing the bytes of an execution (worker/executor.go:232-252). */
module Scrubbing {
  import opened Prelude
  import opened Replacement
  import opened JobConfig
  import opened ShellRuns

  predicate IsRegex(s: Scrubber) {
    s.kind == "regex" || s.kind == "regex_substitute"
  }

  function ScrubOne(text: string, s: Scrubber, re: Regexes): string {
    if s.kind == "regex" then re.replaceLiteral(s.search, text, s.replace)
    else if s.kind == "regex_substitute" then re.replaceExpanded(s.search, text, s.replace)
    else ReplaceBytes(text, s.search, s.replace)
  }

  /** The text after all scrubbers, in order; None when a search does not compile. */
  function Scrubbed(dirty: string, scrubbers: seq<Scrubber>, re: Regexes): Option<string> {
    if scrubbers == [] then Some(dirty)
    else
      var last := scrubbers[|scrubbers| - 1];
      match Scrubbed(dirty, scrubbers[..|scrubbers| - 1], re)
      case None => None
      case Some(text) => if IsRegex(last) && !re.compiles(last.search) then None else Some(ScrubOne(text, last, re))
  }

  method ScrubBytes(dirty: string, scrubbers: seq<Scrubber>, re: Regexes) returns (clean: Option<string>)
    ensures clean == Scrubbed(dirty, scrubbers, re)
  {
    var text := dirty;
    var i := 0;
    while i < |scrubbers|
      invariant i <= |scrubbers| && Scrubbed(dirty, scrubbers[..i], re) == Some(text)
    {
      var s := scrubbers[i];
      assert scrubbers[..i + 1][..i] == scrubbers[..i];
      if IsRegex(s) && !re.compiles(s.search) {
        ScrubStops(dirty, scrubbers, re, i + 1);
        return None;
      }
      text := ScrubOne(text, s, re);
      i := i + 1;
    }
    assert scrubbers[..i] == scrubbers;
    return Some(text);
  }

  lemma {:induction false} ScrubStops(dirty: string, scrubbers: seq<Scrubber>, re: Regexes, n: nat)
    requires n <= |scrubbers| && Scrubbed(dirty, scrubbers[..n], re).None?
    ensures Scrubbed(dirty, scrubbers, re).None?
  {
    if n == |scrubbers| {
      assert scrubbers[..n] == scrubbers;
    } else {
      assert scrubbers[..|scrubbers| - 1][..n] == scrubbers[..n];
      ScrubStops(dirty, scrubbers[..|scrubbers| - 1], re, n);
    }
  }

  /** Scrubbing fails exactly when some search is a pattern that does not compile. */
  lemma {:induction false} ScrubFailsExactly(dirty: string, scrubbers: seq<Scrubber>, re: Regexes)
    ensures Scrubbed(dirty, scrubbers, re).None?
            <==> exists i :: 0 <= i < |scrubbers| && IsRegex(scrubbers[i]) && !re.compiles(scrubbers[i].search)
  {
    if scrubbers != [] {
      var init := scrubbers[..|scrubbers| - 1];
      ScrubFailsExactly(dirty, init, re);
      if i :| 0 <= i < |init| && IsRegex(init[i]) && !re.compiles(init[i].search) {
        assert scrubbers[i] == init[i];
      }
      if i :| 0 <= i < |scrubbers| && IsRegex(scrubbers[i]) && !re.compiles(scrubbers[i].search) && i < |init| {
        assert scrubbers[i] == init[i];
      }
    }
  }

  /** What one more scrubber does, by its type. */
  lemma ScrubOneMore(dirty: string, scrubbers: seq<Scrubber>, s: Scrubber, re: Regexes)
    requires Scrubbed(dirty, scrubbers, re).Some?
    ensures var text, result := Scrubbed(dirty, scrubbers, re).value, Scrubbed(dirty, scrubbers + [s], re);
            && (s.kind in {"regex", "regex_substitute"} && !re.compiles(s.search) ==> result == None)
            && (s.kind == "regex" && re.compiles(s.search) ==>
                  result == Some(re.replaceLiteral(s.search, text, s.replace)))
            && (s.kind == "regex_substitute" && re.compiles(s.search) ==>
                  result == Some(re.replaceExpanded(s.search, text, s.replace)))
            && (s.kind !in {"regex", "regex_substitute"} && s.search != "" ==>
                  result == Some(Replace(text, s.search, s.replace)))
            && (s.kind !in {"regex", "regex_substitute"} && s.search == "" ==>
                  result == Some(Interleave(text, s.replace)))
  {
    assert (scrubbers + [s])[..|scrubbers|] == scrubbers;
  }

  /** Scrubbing with one list and then another is scrubbing with both. */
  lemma {:induction false} ScrubConcat(dirty: string, a: seq<Scrubber>, b: seq<Scrubber>, re: Regexes)
    requires Scrubbed(dirty, a, re).Some?
    ensures Scrubbed(dirty, a + b, re) == Scrubbed(Scrubbed(dirty, a, re).value, b, re)
  {
    if b == [] {
      assert a + b == a;
    } else {
      var last := |b| - 1;
      ScrubConcat(dirty, a, b[..last], re);
      assert (a + b)[..|a + b| - 1] == a + b[..last];
    }
  }

  // ----- What a replacement can leave behind -----

  /** Laid against x from offset d on, the text r agrees with it where both have bytes. */
  predicate Agrees(x: string, r: string, d: int) {
    forall i :: 0 <= i < |x| && 0 <= i - d < |r| ==> x[i] == r[i - d]
  }

  /** A replacement r touching or parting a text can be part of an x there. */
  predicate Meets(x: string, r: string) {
    exists d :: -|r| < d < |x| && Agrees(x, r, d)
  }

  /** The first d bytes of x before an x do not make an earlier one. */
  predicate Unbroken(x: string, d: int)
    requires d <= |x|
  {
    forall q :: 0 <= q < d ==> !(x <= (x[..d] + x)[q..])
  }

  /** Replacing x itself by r can make an x again. */
  predicate Reforms(x: string, r: string) {
    exists d :: -|r| < d < |x| && Agrees(x, r, d) && Unbroken(x, d)
  }

  /** A text that starts the outcome but not the original meets the first replacement. */
  lemma {:induction false} FirstBlock(s: string, search: string, r: string, z: string) returns (d: nat)
    requires search != "" && z <= Replace(s, search, r) && !(z <= s)
    ensures d < |z| && d <= |s| && s[..d] == z[..d] && search <= s[d..] && Agrees(z, r, d)
    ensures forall q :: 0 <= q < d ==> !(search <= s[q..])
    decreases |s|
  {
    if search <= s {
      assert s[0..] == s;
      d := 0;
    } else {
      PrefixTail(z, Replace(s, search, r));
      PrefixTail(z, s);
      d := FirstBlock(s[1..], search, r, z[1..]);
      TailFrom(s, d);
      TailFrom(z, d);
      forall q | 0 <= q <= d ensures !(search <= s[q..]) {
        if q == 0 {
          assert s[0..] == s;
        } else {
          TailFrom(s, q - 1);
        }
      }
      Shifted(z, r, d);
      d := d + 1;
    }
  }

  lemma PrefixTail(a: string, b: string)
    requires a != "" && b != ""
    ensures a <= b <==> a[0] == b[0] && a[1..] <= b[1..]
  {
  }

  lemma TailFrom(s: string, e: nat)
    requires e < |s|
    ensures s[1..][e..] == s[e + 1..] && s[..e + 1] == [s[0]] + s[1..][..e]
  {
  }

  lemma Shifted(z: string, r: string, e: nat)
    requires z != "" && Agrees(z[1..], r, e)
    ensures Agrees(z, r, e + 1)
  {
    forall i | 0 <= i < |z| && 0 <= i - (e + 1) < |r| ensures z[i] == r[i - (e + 1)] {
      assert z[1..][i - 1] == z[i];
    }
  }

  /** Starting inside a replacement is meeting it. */
  lemma StartsInside(x: string, r: string, rest: string, at: int)
    requires x != "" && 0 <= at < |r| && x <= (r + rest)[at..]
    ensures Meets(x, r) && Reforms(x, r)
  {
    forall i | 0 <= i < |x| && 0 <= i + at < |r| ensures x[i] == r[i + at] {
      assert (r + rest)[at..][i] == r[i + at];
    }
    assert Agrees(x, r, -at) && Unbroken(x, -at);
  }

  /** So is starting the outcome without starting the original. */
  lemma StartsWithout(s: string, search: string, r: string, x: string)
    requires search != "" && !(search <= s) && !(x <= s) && x <= Replace(s, search, r)
    ensures Meets(x, r)
    ensures search == x ==> Reforms(x, r)
  {
    var d := FirstBlock(s, search, r, x);
    assert s[0..] == s;
    assert d > 0;
    if search == x {
      UnbrokenBefore(s, x, d);
    }
  }

  /** Replacing anything in a text without x makes no x, where r does not meet it. */
  lemma {:induction false} StaysAway(s: string, search: string, r: string, x: string, at: int)
    requires search != "" && x != "" && !Meets(x, r) && !Contains(s, x)
    ensures !OccursAt(Replace(s, search, r), x, at)
    decreases |s|
  {
    var all := Replace(s, search, r);
    if OccursAt(all, x, at) && s != "" {
      if search <= s {
        var rest := Replace(s[|search|..], search, r);
        TailContains(s, x, |search|);
        if at < |r| {
          StartsInside(x, r, rest, at);
          assert false;
        } else {
          assert all[at..] == rest[at - |r|..];
          StaysAway(s[|search|..], search, r, x, at - |r|);
        }
      } else if at == 0 {
        assert all[0..] == all && s[0..] == s;
        assert x <= s ==> OccursAt(s, x, 0);
        StartsWithout(s, search, r, x);
        assert false;
      } else {
        TailContains(s, x, 1);
        assert all[at..] == Replace(s[1..], search, r)[at - 1..];
        StaysAway(s[1..], search, r, x, at - 1);
      }
    }
  }

  /** The same for what an empty search puts in. */
  lemma {:induction false} StaysAwayBetween(s: string, r: string, x: string, at: int)
    requires x != "" && !Meets(x, r) && !Contains(s, x)
    ensures !OccursAt(Interleave(s, r), x, at)
    decreases |s|
  {
    var all := Interleave(s, r);
    if OccursAt(all, x, at) {
      var rest := if s == "" then "" else s[..RuneLength(s)] + Interleave(s[RuneLength(s)..], r);
      assert all == r + rest;
      if at < |r| {
        StartsInside(x, r, rest, at);
        assert false;
      } else if s != "" {
        var n := RuneLength(s);
        var rest := Interleave(s[n..], r);
        assert all[at..] == (s[..n] + rest)[at - |r|..];
        if at - |r| >= n {
          TailContains(s, x, n);
          assert all[at..] == rest[at - |r| - n..];
          StaysAwayBetween(s[n..], r, x, at - |r| - n);
        } else {
          WithinRune(s, n, rest, r, x, at - |r|);
        }
      }
    }
  }

  lemma WithinRune(s: string, n: nat, rest: string, r: string, x: string, a: nat)
    requires a < n <= |s| && r <= rest && x <= (s[..n] + rest)[a..]
    ensures Contains(s, x) || Meets(x, r)
  {
    var text := s[..n] + rest;
    if |x| <= n - a {
      assert forall i :: 0 <= i < |x| ==> x[i] == text[a..][i] == s[a + i];
      assert x == s[a..][..|x|];
      assert OccursAt(s, x, a);
    } else {
      forall i | 0 <= i < |x| && 0 <= i - (n - a) < |r| ensures x[i] == r[i - (n - a)] {
        assert text[a..][i] == rest[i - (n - a)];
      }
      assert Agrees(x, r, n - a);
    }
  }

  /** Replacing x itself leaves none, where it cannot make one again. */
  lemma {:induction false} LeavesNone(s: string, x: string, r: string, at: int)
    requires x != "" && !Reforms(x, r)
    ensures !OccursAt(Replace(s, x, r), x, at)
    decreases |s|
  {
    var all := Replace(s, x, r);
    if OccursAt(all, x, at) && s != "" {
      if x <= s {
        var rest := Replace(s[|x|..], x, r);
        if at < |r| {
          StartsInside(x, r, rest, at);
          assert false;
        } else {
          assert all[at..] == rest[at - |r|..];
          LeavesNone(s[|x|..], x, r, at - |r|);
        }
      } else if at == 0 {
        assert all[0..] == all;
        StartsWithout(s, x, r, x);
        assert false;
      } else {
        assert all[at..] == Replace(s[1..], x, r)[at - 1..];
        LeavesNone(s[1..], x, r, at - 1);
      }
    }
  }

  lemma UnbrokenBefore(s: string, x: string, d: nat)
    requires d < |x| && d <= |s| && s[..d] == x[..d] && x <= s[d..]
    requires forall q :: 0 <= q < d ==> !(x <= s[q..])
    ensures Unbroken(x, d)
  {
    var both := x[..d] + x;
    assert s[..d] + s[d..] == s;
    assert both <= s;
    forall q | 0 <= q < d ensures !(x <= both[q..]) {
      assert both[q..] <= s[q..];
    }
  }

  // ----- Texts on which it does -----

  function Front(x: string, d: int): string
    requires d <= |x|
  {
    if d <= 0 then "" else x[..d]
  }

  function Back(x: string, r: string, d: int): string
    requires -|r| < d
  {
    if d + |r| >= |x| then "" else x[d + |r|..]
  }

  lemma LaidOver(x: string, r: string, d: int)
    requires -|r| < d < |x| && Agrees(x, r, d)
    ensures Contains(Front(x, d) + r + Back(x, r, d), x)
  {
    var all, at := Front(x, d) + r + Back(x, r, d), if d < 0 then -d else 0;
    forall i | 0 <= i < |x| ensures all[at + i] == x[i] {
    }
    assert all[at..][..|x|] == x;
    assert OccursAt(all, x, at);
  }

  lemma {:induction false} ReplacedOnce(u: string, search: string, w: string, r: string)
    requires search != "" && !Contains(w, search)
    requires forall q :: 0 <= q < |u| ==> !(search <= (u + search + w)[q..])
    ensures Replace(u + search + w, search, r) == u + r + w
    decreases |u|
  {
    if u == "" {
      ReplacedFirst(search, w, r);
    } else {
      ConsAssoc(u, search, w);
      ConsAssoc(u, r, w);
      ReplacedRest(u, search, w);
      ReplacedOnce(u[1..], search, w, r);
    }
  }

  lemma ReplacedFirst(search: string, w: string, r: string)
    requires search != "" && !Contains(w, search)
    ensures Replace("" + search + w, search, r) == "" + r + w
  {
    assert ("" + search + w)[|search|..] == w;
    Untouched(w, search, r);
  }

  lemma ReplacedRest(u: string, search: string, w: string)
    requires u != "" && forall q :: 0 <= q < |u| ==> !(search <= (u + search + w)[q..])
    ensures !(search <= u + search + w)
    ensures forall q :: 0 <= q < |u[1..]| ==> !(search <= (u[1..] + search + w)[q..])
  {
    var s := u + search + w;
    ConsAssoc(u, search, w);
    assert s[0..] == s;
    forall q | 0 <= q < |u[1..]| ensures !(search <= s[1..][q..]) {
      TailFrom(s, q);
    }
  }

  lemma ConsAssoc(u: string, a: string, b: string)
    requires u != ""
    ensures (u + a + b)[0] == u[0] && (u + a + b)[1..] == u[1..] + a + b
    ensures [u[0]] + (u[1..] + a + b) == u + a + b
  {
  }

  lemma TooShort(s: string, x: string)
    requires |s| < |x|
    ensures !Contains(s, x)
  {
  }

  lemma NoneAround(u: string, c: char, w: string, x: string)
    requires c !in x && |u| < |x| && |w| < |x|
    ensures !Contains(u + [c] + w, x)
  {
    var s := u + [c] + w;
    forall at ensures !OccursAt(s, x, at) {
      assert 0 <= at <= |s| - |x| ==> s[at..][|u| - at] == c;
    }
  }

  lemma PrefixOfPrefix(x: string, p: string, s: string)
    requires p <= s && |x| <= |p| && !(x <= p)
    ensures !(x <= s)
  {
    assert s[..|x|] == p[..|x|];
  }

  /** Where r meets x, a text without x in which replacing one byte by r makes an x. */
  lemma MeetingText(x: string, r: string, c: char) returns (s: string)
    requires x != "" && Meets(x, r) && c !in x
    ensures !Contains(s, x) && Contains(Replace(s, [c], r), x)
  {
    var d :| -|r| < d < |x| && Agrees(x, r, d);
    var u, w := Front(x, d), Back(x, r, d);
    s := u + [c] + w;
    NoneAround(u, c, w, x);
    assert c !in u && c !in w;
    forall at ensures !OccursAt(w, [c], at) {
      assert 0 <= at < |w| ==> w[at..][0] == w[at];
    }
    forall q | 0 <= q < |u| ensures !([c] <= s[q..]) {
      assert s[q..][0] == u[q];
    }
    ReplacedOnce(u, [c], w, r);
    LaidOver(x, r, d);
  }

  /** Where x re-forms, a text in which replacing it by r leaves one. */
  lemma ReformingText(x: string, r: string) returns (s: string)
    requires x != "" && Reforms(x, r)
    ensures Contains(Replace(s, x, r), x)
  {
    var d :| -|r| < d < |x| && Agrees(x, r, d) && Unbroken(x, d);
    var u, w := Front(x, d), Back(x, r, d);
    s := u + x + w;
    forall q | 0 <= q < |u| ensures !(x <= s[q..]) {
      assert s[q..] == (u + x)[q..] + w;
      PrefixOfPrefix(x, (u + x)[q..], s[q..]);
    }
    TooShort(w, x);
    ReplacedOnce(u, x, w, r);
    LaidOver(x, r, d);
  }

  /** Putting in r, for whatever search, never makes an x in a text without one, exactly when r
      does not meet x. */
  lemma MeetsExactly(x: string, r: string, c: char)
    requires x != "" && c !in x
    ensures (forall s, search :: !Contains(s, x) ==> !Contains(ReplaceBytes(s, search, r), x)) <==> !Meets(x, r)
  {
    if Meets(x, r) {
      var s := MeetingText(x, r, c);
      assert Contains(ReplaceBytes(s, [c], r), x);
    } else {
      forall s, search | !Contains(s, x) ensures !Contains(ReplaceBytes(s, search, r), x) {
        StaysAwayAll(s, search, r, x);
      }
    }
  }

  lemma StaysAwayAll(s: string, search: string, r: string, x: string)
    requires x != "" && !Meets(x, r) && !Contains(s, x)
    ensures !Contains(ReplaceBytes(s, search, r), x)
  {
    forall at ensures !OccursAt(ReplaceBytes(s, search, r), x, at) {
      if search == "" {
        StaysAwayBetween(s, r, x, at);
      } else {
        StaysAway(s, search, r, x, at);
      }
    }
  }

  ghost predicate Cleared(s: string, x: string, r: string)
    requires x != ""
  {
    !Contains(Replace(s, x, r), x)
  }

  /** A simple scrubber leaves nothing of its search in any output exactly when its search
      does not re-form around its replacement. */
  lemma ReformsExactly(x: string, r: string)
    requires x != ""
    ensures (forall s :: Cleared(s, x, r)) <==> !Reforms(x, r)
  {
    if Reforms(x, r) {
      var s := ReformingText(x, r);
      assert !Cleared(s, x, r);
    } else {
      forall s ensures Cleared(s, x, r) {
        forall at ensures !OccursAt(Replace(s, x, r), x, at) {
          LeavesNone(s, x, r, at);
        }
      }
    }
  }

  // ----- A list of scrubbers -----

  /** From scrubber i on all are simple; its own search does not re-form, and the later
      replacements do not meet it. */
  predicate Thorough(scrubbers: seq<Scrubber>, i: nat)
    requires i < |scrubbers|
  {
    && (forall k :: i <= k < |scrubbers| ==> !IsRegex(scrubbers[k]))
    && !Reforms(scrubbers[i].search, scrubbers[i].replace)
    && (forall k :: i < k < |scrubbers| ==> !Meets(scrubbers[i].search, scrubbers[k].replace))
  }

  /** Then no occurrence of what scrubber i searches for is left at the end. */
  lemma {:induction false} NothingLeft(dirty: string, scrubbers: seq<Scrubber>, re: Regexes, i: nat)
    requires i < |scrubbers| && scrubbers[i].search != "" && Thorough(scrubbers, i)
    requires Scrubbed(dirty, scrubbers, re).Some?
    ensures !Contains(Scrubbed(dirty, scrubbers, re).value, scrubbers[i].search)
  {
    var last := |scrubbers| - 1;
    var init := scrubbers[..last];
    var before := Scrubbed(dirty, init, re).value;
    if i < last {
      assert forall k :: i <= k < last ==> init[k] == scrubbers[k];
      NothingLeft(dirty, init, re, i);
      StaysAwayAll(before, scrubbers[last].search, scrubbers[last].replace, scrubbers[i].search);
    } else {
      ReformsExactly(scrubbers[i].search, scrubbers[i].replace);
      assert Cleared(before, scrubbers[i].search, scrubbers[i].replace);
    }
  }

  function Simple(search: string, replacement: string): Scrubber {
    Scrubber("simple", search, replacement)
  }

  /** Simple scrubbers that put in these texts, whatever they search for. */
  predicate Putting(scrubbers: seq<Scrubber>, replacements: seq<string>) {
    |scrubbers| == |replacements|
    && forall k :: 0 <= k < |scrubbers| ==> scrubbers[k] == Simple(scrubbers[k].search, replacements[k])
  }

  /** Scrubbers whose searches are too long to occur. */
  function Idle(replacements: seq<string>, n: nat): (idle: seq<Scrubber>)
    ensures Putting(idle, replacements)
  {
    seq(|replacements|, k requires 0 <= k < |replacements| => Simple(seq(n, _ => 'x'), replacements[k]))
  }

  lemma {:induction false} IdleLeaves(text: string, replacements: seq<string>, n: nat, re: Regexes)
    requires |text| < n
    ensures Scrubbed(text, Idle(replacements, n), re) == Some(text)
  {
    if replacements != [] {
      var last := |replacements| - 1;
      IdleLeaves(text, replacements[..last], n, re);
      assert Idle(replacements, n)[..last] == Idle(replacements[..last], n);
      TooShort(text, seq(n, _ => 'x'));
      Untouched(text, seq(n, _ => 'x'), replacements[last]);
    }
  }

  /** For a scrubber of x followed by simple ones that put in these texts: whatever those search
      for, and whatever the output, no x is left at the end, exactly when x does not re-form
      around its own replacement and none of the later replacements meets it. */
  lemma NothingLeftExactly(x: string, own: string, replacements: seq<string>, c: char, re: Regexes)
    requires x != "" && c !in x
    ensures (forall dirty, later :: Putting(later, replacements) ==>
               Spotless(dirty, [Simple(x, own)] + later, x, re))
            <==> !Reforms(x, own) && forall k :: 0 <= k < |replacements| ==> !Meets(x, replacements[k])
  {
    if Reforms(x, own) {
      var dirty, later := OwnBreaks(x, own, replacements, re);
    } else if k :| 0 <= k < |replacements| && Meets(x, replacements[k]) {
      var dirty, later := LaterBreaks(x, own, replacements, k, c, re);
    } else {
      forall dirty, later | Putting(later, replacements) ensures Spotless(dirty, [Simple(x, own)] + later, x, re) {
        var all := [Simple(x, own)] + later;
        assert forall k :: 0 < k < |all| ==> all[k] == later[k - 1];
        ScrubFailsExactly(dirty, all, re);
        NothingLeft(dirty, all, re, 0);
      }
    }
  }

  ghost predicate Spotless(dirty: string, scrubbers: seq<Scrubber>, x: string, re: Regexes) {
    Scrubbed(dirty, scrubbers, re).Some? && !Contains(Scrubbed(dirty, scrubbers, re).value, x)
  }

  lemma ScrubFirst(dirty: string, first: Scrubber, re: Regexes)
    requires !IsRegex(first)
    ensures Scrubbed(dirty, [first], re) == Some(ReplaceBytes(dirty, first.search, first.replace))
  {
    assert [first][..0] == [];
    assert Scrubbed(dirty, [], re) == Some(dirty);
  }

  lemma OwnBreaks(x: string, own: string, replacements: seq<string>, re: Regexes)
      returns (dirty: string, later: seq<Scrubber>)
    requires x != "" && Reforms(x, own)
    ensures Putting(later, replacements) && !Spotless(dirty, [Simple(x, own)] + later, x, re)
  {
    dirty := ReformingText(x, own);
    var made := Replace(dirty, x, own);
    later := Idle(replacements, |made| + 1);
    ScrubFirst(dirty, Simple(x, own), re);
    ScrubConcat(dirty, [Simple(x, own)], later, re);
    IdleLeaves(made, replacements, |made| + 1, re);
  }

  lemma LaterBreaks(x: string, own: string, replacements: seq<string>, k: nat, c: char, re: Regexes)
      returns (dirty: string, later: seq<Scrubber>)
    requires x != "" && c !in x && k < |replacements| && Meets(x, replacements[k])
    ensures Putting(later, replacements) && !Spotless(dirty, [Simple(x, own)] + later, x, re)
  {
    dirty := MeetingText(x, replacements[k], c);
    var made := Replace(dirty, [c], replacements[k]);
    var n := |dirty| + |made| + 1;
    var first, at := [Simple(x, own)], [Simple([c], replacements[k])];
    var rest := at + Idle(replacements[k + 1..], n);
    later := Idle(replacements[..k], n) + rest;
    ScrubFirst(dirty, first[0], re);
    Untouched(dirty, x, own);
    ScrubFirst(dirty, at[0], re);
    ScrubConcat(dirty, at, Idle(replacements[k + 1..], n), re);
    IdleLeaves(made, replacements[k + 1..], n, re);
    IdleFirst(dirty, replacements[..k], n, rest, re);
    ScrubConcat(dirty, first, later, re);
  }

  lemma IdleFirst(text: string, replacements: seq<string>, n: nat, rest: seq<Scrubber>, re: Regexes)
    requires |text| < n
    ensures Scrubbed(text, Idle(replacements, n) + rest, re) == Scrubbed(text, rest, re)
  {
    IdleLeaves(text, replacements, n, re);
    ScrubConcat(text, Idle(replacements, n), rest, re);
  }

  /** In particular a later replacement that meets x, as removing one byte does for every x of
      two or more, can bring x back. */
  lemma LaterExposes(x: string, own: string, r: string, c: char, re: Regexes) returns (dirty: string)
    requires x != "" && c !in x && Meets(x, r)
    ensures !Contains(dirty, x)
    ensures !Spotless(dirty, [Simple(x, own), Simple([c], r)], x, re)
  {
    dirty := MeetingText(x, r, c);
    var own_, at := [Simple(x, own)], [Simple([c], r)];
    ScrubFirst(dirty, own_[0], re);
    Untouched(dirty, x, own);
    ScrubFirst(dirty, at[0], re);
    ScrubConcat(dirty, own_, at, re);
    assert own_ + at == [Simple(x, own), Simple([c], r)];
  }

  // ----- Removing, the default -----

  /** One byte, repeated. */
  predicate Unary(x: string) {
    forall i :: 0 <= i < |x| ==> x[i] == x[0]
  }

  /** A later removal meets every text of two bytes or more; removing a text itself leaves none
      of it, whatever the output, exactly when it is one byte repeated. */
  lemma RemovalExactly(x: string)
    requires x != ""
    ensures Meets(x, "") <==> |x| >= 2
    ensures Reforms(x, "") <==> !Unary(x)
  {
    assert |x| >= 2 ==> Agrees(x, "", 1);
    if Unary(x) {
      forall d | 0 < d < |x| ensures !Unbroken(x, d) {
        assert (x[..d] + x)[0..][..|x|] == x;
      }
    } else {
      var j := FirstOther(x, 1);
      assert Agrees(x, "", j);
      forall q | 0 <= q < j ensures !(x <= (x[..j] + x)[q..]) {
        assert (x[..j] + x)[q..][j - q] == x[0];
        assert (x[..j] + x)[q..][j] == (x[..j] + x)[q + j] == x[q];
      }
      assert Unbroken(x, j);
    }
  }

  function FirstOther(x: string, from: nat): (j: nat)
    requires !Unary(x) && 1 <= from <= |x| && forall i :: 0 <= i < from ==> x[i] == x[0]
    ensures 0 < j < |x| && x[j] != x[0] && forall i :: 0 <= i < j ==> x[i] == x[0]
    decreases |x| - from
  {
    if x[from] != x[0] then from else FirstOther(x, from + 1)
  }
}
