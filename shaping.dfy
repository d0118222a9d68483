/** Shaping one summary line as `format` in main.go does: the
    author/repository collapse, the `-c` cut, and whether a line is
    admitted against the lines already seen. */
module Shaping {
  import opened Text
  import opened Events
  import opened Decimal


  /** `i` is the position of the first space of `line`. */
  predicate FirstSpace(line: string, i: int) {
    0 <= i < |line| && line[i] == ' ' && forall j :: 0 <= j < i ==> line[j] != ' '
  }

  /** `p` is the position of the first occurrence of `pat` in `line`. */
  predicate FirstOccurrence(line: string, pat: string, p: int) {
    OccursAt(line, pat, p) && forall q :: 0 <= q < p ==> !OccursAt(line, pat, q)
  }

  lemma SpaceIndex(line: string)
    ensures Index(line, " ") == -1 <==> ' ' !in line
    ensures Index(line, " ") >= 0 ==> FirstSpace(line, Index(line, " "))
  {
    var k := Index(line, " ");
    assert forall q :: OccursAt(line, " ", q) <==> 0 <= q < |line| && line[q] == ' ' by {
      forall q ensures OccursAt(line, " ", q) <==> 0 <= q < |line| && line[q] == ' ' {
        if 0 <= q < |line| {
          assert line[q..q + 1] == [line[q]];
        }
      }
    }
    if ' ' in line {
      var j :| 0 <= j < |line| && line[j] == ' ';
      assert OccursAt(line, " ", j);
    }
  }

  /** The author/repository collapse: the text before the first space,
      followed by a slash, is cut out where it first occurs. */
  function Collapse(line: string): (r: string)
    ensures ' ' !in line ==> r == line
  {
    SpaceIndex(line);
    var idx := Index(line, " ");
    if idx > -1 then ReplaceOnce(line, line[..idx] + "/", "") else line
  }

  /** With a first space at `i`, the first occurrence of the leading token
      and a slash is cut out, once. */
  lemma CollapseRemovesFirst(line: string, i: int, p: int)
    requires FirstSpace(line, i)
    requires FirstOccurrence(line, line[..i] + "/", p)
    ensures Collapse(line) == line[..p] + line[p + i + 1..]
  {
    var pat := line[..i] + "/";
    CollapseAtSpace(line, i);
    IndexFirst(line, pat, p);
    ReplaceAt(line, pat, p);
  }

  /** With a first space at `i`, the collapse is the replacement of the
      text before it followed by a slash. */
  lemma CollapseAtSpace(line: string, i: int)
    requires FirstSpace(line, i)
    ensures Collapse(line) == ReplaceOnce(line, line[..i] + "/", "")
  {
    SpaceIndex(line);
    assert Index(line, " ") == i;
  }

  /** Replacing what `Index` finds by nothing cuts it out. */
  lemma ReplaceAt(line: string, pat: string, p: int)
    requires 0 <= p && Index(line, pat) == p
    ensures ReplaceOnce(line, pat, "") == line[..p] + line[p + |pat|..]
  {
    assert line[..p] + "" == line[..p];
  }

  /** Without such an occurrence the line is left alone. */
  lemma CollapseKeeps(line: string, i: int)
    requires FirstSpace(line, i)
    requires forall q :: 0 <= q <= |line| ==> !OccursAt(line, line[..i] + "/", q)
    ensures Collapse(line) == line
  {
    CollapseAtSpace(line, i);
  }

  /** In `head + (pat + name)`, where `head` has no slash and `pat` ends
      in its only slash, `pat` first occurs right after `head`. */
  lemma FirstAfterHead(head: string, pat: string, name: string)
    requires |pat| > 0 && pat[|pat| - 1] == '/'
    requires '/' !in head && '/' !in pat[..|pat| - 1]
    ensures FirstOccurrence(head + (pat + name), pat, |head|)
  {
    var line := head + (pat + name);
    var p := |head|;
    var k := |pat| - 1;
    assert line[p..p + |pat|] == pat;
    forall q | 0 <= q < p ensures !OccursAt(line, pat, q) {
      if q + |pat| <= |line| {
        assert line[q + k] != '/' by {
          if q + k < p {
            assert line[q + k] == head[q + k];
          } else {
            assert line[q + k] == pat[q + k - p] == pat[..k][q + k - p];
          }
        }
        assert line[q..q + |pat|][k] == line[q + k];
      }
    }
  }

  /** An actor who owns the repository is not repeated: a line that
      starts with the actor and a space, has no slash before the
      repository and names the repository `actor/name` shows just
      `name`. */
  lemma CollapseOwnRepo(actor: string, head: string, name: string)
    requires ' ' !in actor && '/' !in actor && '/' !in head
    requires |actor| < |head| && head[..|actor|] == actor && head[|actor|] == ' '
    ensures Collapse(head + ((actor + "/") + name)) == head + name
  {
    var line := head + ((actor + "/") + name);
    OwnRepoLine(actor, head, name);
    CollapseRemovesFirst(line, |actor|, |head|);
  }

  /** The positions `CollapseOwnRepo` relies on: the first space ends the
      actor, and the actor's slash first occurs right after `head`. */
  lemma OwnRepoLine(actor: string, head: string, name: string)
    requires ' ' !in actor && '/' !in actor && '/' !in head
    requires |actor| < |head| && head[..|actor|] == actor && head[|actor|] == ' '
    ensures var line := head + ((actor + "/") + name);
      && FirstSpace(line, |actor|)
      && FirstOccurrence(line, line[..|actor|] + "/", |head|)
      && line[..|head|] + line[|head| + |actor| + 1..] == head + name
  {
    var pat := actor + "/";
    var line := head + (pat + name);
    var a := |actor|;
    assert FirstSpace(line, a) by {
      forall j | 0 <= j < a ensures line[j] != ' ' {
        assert line[j] == head[..a][j];
      }
    }
    assert line[..a] == actor by {
      assert line[..a] == head[..a];
    }
    assert pat[..a] == actor;
    FirstAfterHead(head, pat, name);
    assert line[..|head|] == head;
    assert line[|head| + a + 1..] == name;
  }

  /** As written, the collapse looks for the actor and a slash anywhere:
      an owner whose name ends with the actor's loses that part too, so
      `alice push to xalice/repo` becomes `alice push to xrepo`. */
  lemma CollapseOwnerSuffix(actor: string, head: string, prefix: string, name: string)
    requires ' ' !in actor && '/' !in actor && '/' !in head && '/' !in prefix
    requires |actor| < |head| && head[..|actor|] == actor && head[|actor|] == ' '
    ensures Collapse(head + ((prefix + (actor + "/")) + name)) == head + (prefix + name)
  {
    var line := head + ((prefix + (actor + "/")) + name);
    Regroup(head, prefix, actor + "/", name);
    assert line == (head + prefix) + ((actor + "/") + name);
    assert (head + prefix)[..|actor|] == actor by {
      assert (head + prefix)[..|actor|] == head[..|actor|];
    }
    CollapseOwnRepo(actor, head + prefix, name);
    Regroup(head, prefix, name, []);
  }

  lemma Regroup(a: string, b: string, c: string, d: string)
    ensures a + ((b + c) + d) == (a + b) + (c + d)
    ensures (a + b) + c == a + (b + c)
  {
  }

  /** A repository whose owner is not the actor keeps its full name, as
      long as the text in front of its only slash does not end with the
      actor: `alice push to bob/repo` is left alone. */
  lemma CollapseOtherOwner(actor: string, middle: string, owner: string, name: string)
    requires ' ' !in actor && '/' !in actor && '/' !in middle && '/' !in owner && '/' !in name
    requires |middle| > 0 && middle[0] == ' '
    requires var t := actor + middle + owner; t[|t| - |actor|..] != actor
    ensures Collapse((actor + middle) + ((owner + "/") + name)) == (actor + middle) + ((owner + "/") + name)
  {
    var head := actor + middle;
    var t := head + owner;
    var line := head + ((owner + "/") + name);
    var a := |actor|;
    assert line[a] == ' ';
    assert FirstSpace(line, a);
    assert line[..a] == actor;
    var pat := actor + "/";
    forall q | 0 <= q <= |line| ensures !OccursAt(line, pat, q) {
      if q + a + 1 <= |line| {
        if q + a == |t| {
          assert line[q..q + a] == t[|t| - a..];
          assert line[q..q + a + 1][..a] == line[q..q + a];
        } else {
          assert line[q + a] != '/' by {
            if q + a < |head| {
              assert line[q + a] == head[q + a];
            } else if q + a < |t| {
              assert line[q + a] == owner[q + a - |head|];
            } else {
              assert line[q + a] == name[q + a - |t| - 1];
            }
          }
          assert line[q..q + a + 1][a] == line[q + a];
        }
      }
    }
    CollapseKeeps(line, a);
  }

  /** The `-c` cut: a line longer than a positive limit keeps exactly its
      first `limit` characters. */
  function Truncate(line: string, limit: int): (r: string)
    ensures limit > 0 && limit < |line| ==> r == line[..limit]
    ensures !(limit > 0 && limit < |line|) ==> r == line
    ensures limit > 0 ==> |r| <= limit
    ensures r <= line
  {
    if limit > 0 && limit < |line| then line[..limit] else line
  }

  /** The line as `format` finally has it, before the duplicate check. */
  function Shape(raw: string, limit: int): (r: string)
    ensures r <= Collapse(raw)
    ensures limit > 0 ==> |r| <= limit
    ensures limit > 0 && limit < |Collapse(raw)| ==> |r| == limit
    ensures !(limit > 0 && limit < |Collapse(raw)|) ==> r == Collapse(raw)
  {
    Truncate(Collapse(raw), limit)
  }

  /** The shaped line of one event, or None for a skipped kind. */
  function LineOf(e: Event, limit: int): (r: Option<string>)
    ensures r == None <==> e.kind in SkipEvents
    ensures limit > 0 && r.Some? ==> |r.value| <= limit
  {
    match Summary(e)
    case None => None
    case Some(raw) => Some(Shape(raw, limit))
  }

  /** `head` starts with `actor` and a space and has no slash. */
  predicate LedBy(actor: string, head: string) {
    |actor| < |head| && head[..|actor|] == actor && head[|actor|] == ' ' && '/' !in head
  }

  /** Every template that starts with the actor and ends with the
      repository (all but project, follow and fall-back) shows a
      repository of the acting user by its short name: with `repo` equal
      to `actor/name`, the collapsed line is the line for `name`. */
  lemma LineOwnRepo(t: Template, e: Event, name: string)
    requires !t.ProjectLine? && !t.Follow? && !t.Fallback?
    requires ' ' !in e.actor && '/' !in e.actor
    requires (t.Tag? || t.DeleteBranch?) ==> '/' !in e.refName
    requires t.Release? ==> '/' !in e.releaseTag
    requires e.repo == (e.actor + "/") + name
    ensures Collapse(Render(t, e)) == Render(t, e.(repo := name))
  {
    var head := RepoLast(t, e, name);
    CollapseOwnRepo(e.actor, head, name);
  }

  /** The templates that start with the actor and end with the
      repository (all but project, follow and fall-back): the text in
      front of the repository starts with the actor and a space, and has
      no slash. */
  lemma RepoLast(t: Template, e: Event, name: string) returns (head: string)
    requires !t.ProjectLine? && !t.Follow? && !t.Fallback?
    requires ' ' !in e.actor && '/' !in e.actor
    requires (t.Tag? || t.DeleteBranch?) ==> '/' !in e.refName
    requires t.Release? ==> '/' !in e.releaseTag
    ensures LedBy(e.actor, head)
    ensures Render(t, e) == head + e.repo
    ensures Render(t, e.(repo := name)) == head + name
  {
    var a := e.actor;
    var n := Itoa(e.issueNumber);
    match t {
      case Star => head := LedByWord(a, " star ");
      case IssueCreated =>
        head := LedByWord(a, " comment issue ");
        head := LedByField(a, head, n);
      case IssueOpened =>
        head := LedByWord(a, " made issue ");
        head := LedByField(a, head, n);
      case IssueClosed =>
        head := LedByWord(a, " close issue ");
        head := LedByField(a, head, n);
      case IssueComment => head := LedByWord(a, " comment issue ");
      case Push => head := LedByWord(a, " push to ");
      case Fork => head := LedByWord(a, " fork ");
      case Tag =>
        head := LedByWord(a, " tag ");
        head := LedByField(a, head, e.refName);
      case CreateRepo => head := LedByWord(a, " create ");
      case Branch => head := LedByWord(a, " branch ");
      case ReviewComment => head := LedByWord(a, " comment req ");
      case PullClosed => head := LedByWord(a, " close pull ");
      case PullOpened => head := LedByWord(a, " create pull ");
      case DeleteBranch =>
        head := LedByWord(a, " del branch ");
        head := LedByField(a, head, e.refName);
      case Release =>
        head := LedByWord(a, " published ");
        head := LedByField(a, head, e.releaseTag);
    }
  }

  /** The fall-back line starts with `->`, so the collapse looks for
      `->/`: a repository whose owner has no `>` keeps its owner, even when
      the owner is the actor. */
  lemma FallbackKeepsOwner(e: Event, owner: string, name: string)
    requires '/' !in e.kind && '/' !in e.actor && '/' !in owner && '>' !in owner && '/' !in name
    requires e.repo == (owner + "/") + name
    ensures Collapse(Render(Fallback, e)) == Render(Fallback, e)
  {
    var head := "-> " + e.kind + " " + e.actor + " " + owner;
    var line := head + ("/" + name);
    assert Render(Fallback, e) == line;
    assert line[0] == '-' && line[1] == '>' && line[2] == ' ';
    assert FirstSpace(line, 2);
    assert line[..2] + "/" == "->/";
    var pre := "-> " + e.kind + " " + e.actor + " ";
    assert head == pre + owner;
    assert '/' !in head;
    assert head[|head| - 1] != '>' by {
      if |owner| > 0 {
        assert head[|head| - 1] == owner[|owner| - 1];
      } else {
        assert head[|head| - 1] == pre[|pre| - 1];
      }
    }
    forall q | 0 <= q <= |line| ensures !OccursAt(line, "->/", q) {
      if q + 3 <= |line| {
        if q + 2 < |head| {
          assert line[q + 2] == head[q + 2];
        } else if q + 2 > |head| {
          assert line[q + 2] == name[q + 2 - |head| - 1];
        } else {
          assert line[q + 1] == head[|head| - 1];
        }
        assert line[q..q + 3][1] == line[q + 1] && line[q..q + 3][2] == line[q + 2];
      }
    }
    CollapseKeeps(line, 2);
  }

  /** As written, a tag or branch named `<actor>/<x>` loses its
      `<actor>/`, because that is where the actor and a slash first
      occur; the repository then keeps its owner. */
  lemma RefOfActor(t: Template, e: Event, x: string)
    requires t.Tag? || t.DeleteBranch?
    requires ' ' !in e.actor && '/' !in e.actor
    requires e.refName == (e.actor + "/") + x
    ensures Collapse(Render(t, e)) == Render(t, e.(refName := x))
  {
    var word := if t.Tag? then " tag " else " del branch ";
    var head := LedByWord(e.actor, word);
    var rest := " " + e.repo;
    RefLine(t, e, word);
    RefLine(t, e.(refName := x), word);
    Regroup4(head, e.actor + "/", x, rest);
    CollapseOwnRepo(e.actor, head, x + rest);
  }

  lemma Regroup4(a: string, b: string, c: string, d: string)
    ensures (a + (b + c)) + d == a + (b + (c + d))
    ensures (a + c) + d == a + (c + d)
  {
  }

  /** The tag and delete-branch lines: the actor, the word, the ref, a
      space and the repository. */
  lemma RefLine(t: Template, e: Event, word: string)
    requires t.Tag? || t.DeleteBranch?
    requires word == if t.Tag? then " tag " else " del branch "
    ensures Render(t, e) == ((e.actor + word) + e.refName) + (" " + e.repo)
  {
  }

  lemma LedByWord(actor: string, word: string) returns (head: string)
    requires '/' !in actor && '/' !in word && |word| > 0 && word[0] == ' '
    ensures head == actor + word && LedBy(actor, head)
  {
    head := actor + word;
    assert head[..|actor|] == actor;
  }

  lemma LedByField(actor: string, head: string, field: string) returns (head': string)
    requires LedBy(actor, head) && '/' !in field
    ensures head' == head + field + " " && LedBy(actor, head')
  {
    head' := head + field + " ";
    assert head'[..|actor|] == head[..|actor|];
  }

  /** What one outcome adds to the output, given the lines seen so far:
      nothing for a skipped event, otherwise its line, written when
      duplicates are shown or when it is new. */
  function Fresh(o: Option<string>, seen: set<string>, showDupes: bool): (r: seq<string>)
    ensures |r| <= 1
    ensures o.None? ==> r == []
    ensures o.Some? ==> (r == [o.value] <==> showDupes || o.value !in seen)
    ensures o.Some? ==> (r == [] <==> !showDupes && o.value in seen)
  {
    match o
    case None => []
    case Some(l) => if showDupes || l !in seen then [l] else []
  }
}
