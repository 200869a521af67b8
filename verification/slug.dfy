/** Slug derivation for custom-field names, over ASCII:
    `name.toLowerCase().replace(/\s+/g, '_').replace(/[^a-z0-9_]/g, '')`,
    and `String.prototype.trim` for the stored display name. */
module Slug {

  /** ASCII white space as `\s` and `trim` see it: space, and tab through
      carriage return (tab, line feed, vertical tab, form feed, return). */
  predicate IsSpace(c: char)
  {
    c == ' ' || '\t' <= c <= '\r'
  }

  predicate IsUpper(c: char)
  {
    'A' <= c <= 'Z'
  }

  /** The characters a slug may hold: `[a-z0-9_]`. */
  predicate IsSlugChar(c: char)
  {
    'a' <= c <= 'z' || '0' <= c <= '9' || c == '_'
  }

  predicate AllSlugChars(s: string)
  {
    forall i :: 0 <= i < |s| ==> IsSlugChar(s[i])
  }

  /** ASCII lower-casing of one character. */
  function LowerChar(c: char): (d: char)
    ensures !IsUpper(d)
    ensures IsSpace(d) <==> IsSpace(c)
    ensures !IsUpper(c) ==> d == c
  {
    if IsUpper(c) then (c as int + 32) as char else c
  }

  /** Step 1, `toLowerCase()`. */
  function Lower(s: string): (r: string)
    ensures |r| == |s|
    ensures forall i :: 0 <= i < |s| ==> r[i] == LowerChar(s[i])
  {
    seq(|s|, i requires 0 <= i < |s| => LowerChar(s[i]))
  }

  /** Step 2, `replace(/\s+/g, '_')`: each maximal run of white space becomes
      one underscore. `inRun` says that the character before `s` was white
      space, so a run that began there has already produced its underscore. */
  function Collapse(s: string, inRun: bool): (r: string)
    ensures forall i :: 0 <= i < |r| ==> !IsSpace(r[i])
  {
    if s == [] then []
    else if IsSpace(s[0]) then (if inRun then [] else "_") + Collapse(s[1..], true)
    else [s[0]] + Collapse(s[1..], false)
  }

  /** Step 3, `replace(/[^a-z0-9_]/g, '')`: keep only slug characters. */
  function Strip(s: string): (r: string)
    ensures AllSlugChars(r)
    ensures |r| <= |s|
    ensures r == [] <==> forall i :: 0 <= i < |s| ==> !IsSlugChar(s[i])
  {
    if s == [] then []
    else (if IsSlugChar(s[0]) then [s[0]] else []) + Strip(s[1..])
  }

  /** The slug of a field name (settings.js line 33). It holds only
      characters of `[a-z0-9_]`, hence no upper-case letter. */
  function Derive(name: string): (slug: string)
    ensures AllSlugChars(slug)
    ensures forall i :: 0 <= i < |slug| ==> !IsUpper(slug[i])
  {
    Strip(Collapse(Lower(name), false))
  }

  /** Whether `s` ends inside a run of white space, given `inRun` before it. */
  function EndsInRun(s: string, inRun: bool): bool
  {
    if s == [] then inRun else IsSpace(s[|s| - 1])
  }

  // ---- Composition lemmas -------------------------------------------------

  lemma LowerAppend(a: string, b: string)
    ensures Lower(a + b) == Lower(a) + Lower(b)
  {
    assert Lower(a + b) == Lower(a) + Lower(b) by {
      forall i | 0 <= i < |a + b|
        ensures Lower(a + b)[i] == (Lower(a) + Lower(b))[i]
      {
        if i < |a| { assert (a + b)[i] == a[i]; } else { assert (a + b)[i] == b[i - |a|]; }
      }
    }
  }

  lemma {:induction false} StripAppend(a: string, b: string)
    ensures Strip(a + b) == Strip(a) + Strip(b)
  {
    if a != [] {
      assert (a + b)[0] == a[0];
      assert (a + b)[1..] == a[1..] + b;
      StripAppend(a[1..], b);
    } else {
      assert a + b == b;
    }
  }

  lemma {:induction false} CollapseAppend(a: string, b: string, inRun: bool)
    ensures Collapse(a + b, inRun) == Collapse(a, inRun) + Collapse(b, EndsInRun(a, inRun))
  {
    if a == [] {
      assert a + b == b;
    } else {
      assert (a + b)[0] == a[0];
      assert (a + b)[1..] == a[1..] + b;
      CollapseAppend(a[1..], b, IsSpace(a[0]));
      assert EndsInRun(a[1..], IsSpace(a[0])) == EndsInRun(a, inRun);
    }
  }

  /** The slug of a concatenation, one piece at a time. */
  lemma DeriveAppend(a: string, b: string)
    ensures Derive(a + b)
         == Strip(Collapse(Lower(a), false)) + Strip(Collapse(Lower(b), EndsInRun(Lower(a), false)))
  {
    LowerAppend(a, b);
    CollapseAppend(Lower(a), Lower(b), false);
    StripAppend(Collapse(Lower(a), false), Collapse(Lower(b), EndsInRun(Lower(a), false)));
  }

  // ---- Idempotence ---------------------------------------------------------

  lemma {:induction false} CollapseNoSpace(s: string, inRun: bool)
    requires forall i :: 0 <= i < |s| ==> !IsSpace(s[i])
    ensures Collapse(s, inRun) == s
  {
    if s != [] {
      CollapseNoSpace(s[1..], false);
    }
  }

  lemma {:induction false} StripSlug(s: string)
    requires AllSlugChars(s)
    ensures Strip(s) == s
  {
    if s != [] {
      StripSlug(s[1..]);
    }
  }

  /** A derived slug derives to itself, so deriving is idempotent. */
  lemma DeriveIdempotent(name: string)
    ensures Derive(Derive(name)) == Derive(name)
  {
    var t := Derive(name);
    assert Lower(t) == t;
    CollapseNoSpace(t, false);
    StripSlug(t);
  }

  // ---- Names that give the same slug -----------------------------------------

  /** Names that differ only in the case of ASCII letters give the same slug. */
  lemma DeriveIgnoresCase(a: string, b: string)
    requires |a| == |b|
    requires forall i :: 0 <= i < |a| ==> LowerChar(a[i]) == LowerChar(b[i])
    ensures Derive(a) == Derive(b)
  {
    assert Lower(a) == Lower(b);
  }

  /** Doubling a white-space character inside a run does not change the slug:
      only the presence of a run matters, not its length. */
  lemma DeriveSpaceRun(a: string, b: string, w: char, w': char)
    requires IsSpace(w) && IsSpace(w')
    ensures Derive(a + [w, w'] + b) == Derive(a + [w] + b)
  {
    var x, lb := Lower(a + [w]), Lower(b);
    assert Lower([w']) == [w'];
    assert a + [w, w'] + b == (a + [w]) + ([w'] + b);
    LowerAppend(a + [w], [w'] + b);
    LowerAppend([w'], b);
    LowerAppend(a + [w], b);
    CollapseAppend(x, [w'] + lb, false);
    CollapseAppend(x, lb, false);
    assert x[|x| - 1] == LowerChar(w);
    assert ([w'] + lb)[0] == w' && ([w'] + lb)[1..] == lb;
    assert Collapse([w'] + lb, true) == Collapse(lb, true);
    assert Lower(a + [w, w'] + b) == x + ([w'] + lb);
    assert Collapse(x + ([w'] + lb), false) == Collapse(x + lb, false);
  }

  lemma CollapseAfterRun(s: string)
    requires s == [] || !IsSpace(s[0])
    ensures Collapse(s, true) == Collapse(s, false)
  {
  }

  /** Dropping a character that is neither white space nor (once lower-cased) a
      slug character does not change the slug, unless it is the only thing
      separating two runs of white space. */
  lemma DeriveDropsPunctuation(a: string, b: string, p: char)
    requires !IsSpace(p) && !IsSlugChar(LowerChar(p))
    requires a == [] || !IsSpace(a[|a| - 1]) || b == [] || !IsSpace(b[0])
    ensures Derive(a + [p] + b) == Derive(a + b)
  {
    var la, lb, q := Lower(a), Lower(b), LowerChar(p);
    LowerSplice(a, b, p);
    var e := EndsInRun(la, false);
    CollapseAppend(la, [q] + lb, false);
    CollapseAppend(la, lb, false);
    assert ([q] + lb)[0] == q && ([q] + lb)[1..] == lb;
    var ca, cb := Collapse(la, false), Collapse(lb, false);
    assert Collapse([q] + lb, e) == [q] + cb;
    StripAppend(ca, [q] + cb);
    assert ([q] + cb)[0] == q && ([q] + cb)[1..] == cb;
    assert Strip([q] + cb) == Strip(cb);
    StripAppend(ca, Collapse(lb, e));
    if e {
      assert a != [] && la[|la| - 1] == LowerChar(a[|a| - 1]);
      assert lb != [] ==> lb[0] == LowerChar(b[0]);
      CollapseAfterRun(lb);
    }
  }

  /** Lower-casing works character by character around a spliced character. */
  lemma LowerSplice(a: string, b: string, p: char)
    ensures Lower(a + [p] + b) == Lower(a) + ([LowerChar(p)] + Lower(b))
    ensures Lower(a + b) == Lower(a) + Lower(b)
  {
    assert Lower([p]) == [LowerChar(p)];
    assert a + [p] + b == a + ([p] + b);
    LowerAppend(a, [p] + b);
    LowerAppend([p], b);
    LowerAppend(a, b);
  }

  lemma JobTitleCollapse()
    ensures Collapse("job title", false) == "job_title"
  {
    var j, t := "job", "title";
    CollapseNoSpace(j, false);
    CollapseNoSpace(t, true);
    assert " title" == [' '] + t;
    assert Collapse(" title", false) == "_title";
    assert "job title" == j + " title";
    CollapseAppend(j, " title", false);
    assert EndsInRun(j, false) == false;
    assert j + "_title" == "job_title";
  }

  lemma JobTitleNoUpper()
    ensures Lower("job title") == "job title"
  {
    assert forall i :: 0 <= i < |"job title"| ==> !IsUpper("job title"[i]);
  }

  lemma JobTitleStrip()
    ensures Strip("job_title") == "job_title"
  {
    StripSlug("job_title");
  }

  lemma JobTitleLower()
    ensures Derive("job title") == "job_title"
  {
    JobTitleNoUpper();
    JobTitleCollapse();
    JobTitleStrip();
  }

  lemma JobTitleCase()
    ensures Derive("Job Title") == Derive("job title")
  {
    DeriveIgnoresCase("Job Title", "job title");
  }

  lemma JobTitlePunctuated()
    ensures Derive("job   title!!") == Derive("job title")
  {
    assert "job   title!!" == "job" + [' ', ' '] + " title!!";
    DeriveSpaceRun("job", " title!!", ' ', ' ');
    assert "job" + [' '] + " title!!" == "job" + [' ', ' '] + "title!!";
    DeriveSpaceRun("job", "title!!", ' ', ' ');
    assert "job" + [' '] + "title!!" == "job title!" + ['!'] + "";
    DeriveDropsPunctuation("job title!", "", '!');
    assert "job title!" + "" == "job title" + ['!'] + "";
    DeriveDropsPunctuation("job title", "", '!');
    assert "job title" + "" == "job title";
  }

  /** "Job Title" and "job   title!!" both give `job_title`. */
  lemma JobTitleExample()
    ensures Derive("Job Title") == "job_title"
    ensures Derive("job   title!!") == "job_title"
  {
    JobTitleLower();
    JobTitleCase();
    JobTitlePunctuated();
  }

  /** No character of s is white space or a slug character. */
  predicate Discarded(s: string)
  {
    forall i :: 0 <= i < |s| ==> !IsSpace(s[i]) && !IsSlugChar(s[i])
  }

  lemma {:induction false} CollapseStripEmpty(s: string)
    ensures Strip(Collapse(s, false)) == [] <==> Discarded(s)
  {
    if s != [] {
      var c := Collapse(s, false);
      assert Discarded(s) <==> !IsSpace(s[0]) && !IsSlugChar(s[0]) && Discarded(s[1..]) by {
        if !IsSpace(s[0]) && !IsSlugChar(s[0]) && Discarded(s[1..]) {
          forall i | 0 <= i < |s| ensures !IsSpace(s[i]) && !IsSlugChar(s[i]) {
            if i > 0 { assert s[i] == s[1..][i - 1]; }
          }
        }
      }
      if IsSpace(s[0]) {
        assert c[0] == '_' && c[1..] == Collapse(s[1..], true);
      } else {
        CollapseStripEmpty(s[1..]);
        assert c[0] == s[0] && c[1..] == Collapse(s[1..], false);
      }
    }
  }

  /** The slug is empty exactly when the name holds no white space and no
      character that lower-cases to a slug character: a name made of
      punctuation only (e.g. "!!!") derives the empty slug. */
  lemma DeriveEmpty(name: string)
    ensures Derive(name) == []
        <==> forall i :: 0 <= i < |name| ==> !IsSpace(name[i]) && !IsSlugChar(LowerChar(name[i]))
  {
    CollapseStripEmpty(Lower(name));
  }

  lemma {:induction false} CollapseBlank(s: string)
    requires forall i :: 0 <= i < |s| ==> IsSpace(s[i])
    ensures Collapse(s, true) == []
  {
    if s != [] {
      CollapseBlank(s[1..]);
    }
  }

  /** A name of white space only is truthy and derives the slug `_`. */
  lemma DeriveBlank(name: string)
    requires name != []
    requires forall i :: 0 <= i < |name| ==> IsSpace(name[i])
    ensures Derive(name) == "_"
  {
    assert Lower(name) == name;
    CollapseBlank(name[1..]);
    assert Collapse(name, false) == "_";
  }

  // ---- Trim -----------------------------------------------------------------

  /** The number of leading white-space characters. */
  function Lead(s: string): (n: nat)
    ensures n <= |s|
    ensures forall i :: 0 <= i < n ==> IsSpace(s[i])
    ensures n == |s| || !IsSpace(s[n])
  {
    if s != [] && IsSpace(s[0]) then 1 + Lead(s[1..]) else 0
  }

  /** `trimEnd`: drop trailing white space. */
  function TrimEnd(s: string): (r: string)
    ensures |r| <= |s| && r == s[..|r|]
    ensures forall i :: |r| <= i < |s| ==> IsSpace(s[i])
    ensures r == [] || !IsSpace(r[|r| - 1])
  {
    if s != [] && IsSpace(s[|s| - 1]) then TrimEnd(s[..|s| - 1]) else s
  }

  /** `trim()`: the name without leading and trailing white space; what is
      removed is white space and what remains starts and ends with something else. */
  function Trim(s: string): (r: string)
    ensures Lead(s) + |r| <= |s| && r == s[Lead(s)..Lead(s) + |r|]
    ensures forall i :: Lead(s) + |r| <= i < |s| ==> IsSpace(s[i])
    ensures r == [] || (!IsSpace(r[0]) && !IsSpace(r[|r| - 1]))
  {
    var n := Lead(s);
    var r := TrimEnd(s[n..]);
    assert forall i :: n + |r| <= i < |s| ==> s[i] == s[n..][i - n];
    r
  }
}
