/**
 * Naming of the per-session log file: the session id is cleaned of every
 * character outside `[a-zA-Z0-9_\-.]` and put in place of the `%s` of the
 * file name mask.
 */
module SessionLog {

  import opened Wrappers
  import opened Replace

  /** The characters the cleaning keeps. */
  predicate IsSafeChar(c: char) {
    ('a' <= c <= 'z') || ('A' <= c <= 'Z') || ('0' <= c <= '9') || c == '_' || c == '-' || c == '.'
  }

  /** The id with every character outside the safe set removed. */
  function CleanId(id: string): (r: string)
    ensures forall i :: 0 <= i < |r| ==> IsSafeChar(r[i])
    ensures |r| <= |id|
  {
    if id == [] then [] else (if IsSafeChar(id[0]) then [id[0]] else []) + CleanId(id[1..])
  }

  /** Each safe character is kept as often as it occurs; no other is kept. */
  lemma {:induction false} CleanIdCounts(id: string, c: char)
    ensures multiset(CleanId(id))[c] == if IsSafeChar(c) then multiset(id)[c] else 0
    decreases |id|
  {
    if id != [] {
      CleanIdCounts(id[1..], c);
      assert id == [id[0]] + id[1..];
    }
  }

  /** `r` is `s` with some elements left out, the rest in their order. */
  ghost predicate IsSubsequence(r: string, s: string)
    decreases |s|
  {
    if r == [] then true
    else if s == [] then false
    else (r[0] == s[0] && IsSubsequence(r[1..], s[1..])) || IsSubsequence(r, s[1..])
  }

  /** The cleaned id keeps the order of the characters it keeps. */
  lemma {:induction false} CleanIdSubsequence(id: string)
    ensures IsSubsequence(CleanId(id), id)
    decreases |id|
  {
    if id != [] {
      CleanIdSubsequence(id[1..]);
      if IsSafeChar(id[0]) {
        assert CleanId(id)[0] == id[0] && CleanId(id)[1..] == CleanId(id[1..]);
      } else {
        assert CleanId(id) == CleanId(id[1..]);
      }
    }
  }

  /** Cleaning works piece by piece. */
  lemma {:induction false} CleanIdAppend(a: string, b: string)
    ensures CleanId(a + b) == CleanId(a) + CleanId(b)
    decreases |a|
  {
    if a == [] {
      assert a + b == b;
    } else {
      assert (a + b)[0] == a[0] && (a + b)[1..] == a[1..] + b;
      CleanIdAppend(a[1..], b);
    }
  }

  /** An id is left as it is exactly when it holds only safe characters. */
  lemma {:induction false} CleanIdUnchanged(id: string)
    ensures CleanId(id) == id <==> forall i :: 0 <= i < |id| ==> IsSafeChar(id[i])
    decreases |id|
  {
    if id != [] {
      CleanIdUnchanged(id[1..]);
      if !IsSafeChar(id[0]) {
        assert |CleanId(id)| < |id|;
      } else {
        assert forall i :: 1 <= i < |id| ==> id[i] == id[1..][i - 1];
      }
    }
  }

  /**
   * Whether the session gets a log file, and its name. `NoDirectoryPart`:
   * the name holds no '/', so `os.makedirs` is given the empty directory
   * name and raises before any file is opened.
   */
  datatype LogTarget = NoFile | FileAt(name: string) | MaskUnsupported | NoDirectoryPart

  /** The mask with the text put in place of the `%s` at `i`. */
  function Substitute(mask: string, i: nat, text: string): string
    requires i + 2 <= |mask|
  {
    mask[..i] + text + mask[i + 2..]
  }

  /** Putting the cleaned id in place of `%s` adds no '/' to the name. */
  lemma SubstituteAddsNoSlash(mask: string, i: nat, id: string)
    requires OccursAt(mask, "%s", i)
    ensures multiset(Substitute(mask, i, CleanId(id)))['/'] == multiset(mask)['/']
  {
    CleanIdCounts(id, '/');
    var before, after := mask[..i], mask[i + 2..];
    assert mask == before + "%s" + after;
    assert multiset(mask) == multiset(before) + multiset("%s") + multiset(after);
    assert multiset("%s")['/'] == 0;
  }

  /**
   * The file name the mask gives for a session: the mask itself when it has
   * no `%s`; the mask with the cleaned id in place of its `%s` when that is
   * its only '%'; None for a mask with any other '%' beside a `%s`, whose
   * formatting is outside the model. The name has as many '/' as the mask.
   */
  function FormatMask(mask: string, id: string): (r: Option<string>)
    ensures r.None? <==> !NoMatch(mask, "%s") && multiset(mask)['%'] != 1
    ensures r.Some? ==> multiset(r.value)['/'] == multiset(mask)['/']
  {
    match FirstMatch(mask, "%s")
    case None => Some(mask)
    case Some(i) =>
      if multiset(mask)['%'] == 1 then
        SubstituteAddsNoSlash(mask, i, id);
        Some(Substitute(mask, i, CleanId(id)))
      else None
  }

  /**
   * The log file of a session: none when file logging is off or the mask is
   * empty; otherwise the formatted mask, opened when it names a directory.
   */
  function LogFileName(noLog: bool, mask: string, id: string): (r: LogTarget)
    ensures r.FileAt? ==> '/' in r.name
    ensures r.NoDirectoryPart? ==> '/' !in mask
  {
    if noLog || mask == "" then NoFile
    else match FormatMask(mask, id)
      case None => MaskUnsupported
      case Some(name) =>
        assert '/' in name <==> '/' in mask by {
          assert '/' in name <==> multiset(name)['/'] > 0;
          assert '/' in mask <==> multiset(mask)['/'] > 0;
        }
        if '/' in name then FileAt(name) else NoDirectoryPart
  }

  /**
   * A file is opened exactly when logging to file is on, the mask is not
   * empty, its formatting is modelled and it holds a '/'; a mask without
   * '/' fails whatever the session id. Without `%s` the name is the mask;
   * with one it is the mask around the cleaned id.
   */
  lemma LogFileNameCases(noLog: bool, mask: string, id: string)
    ensures var r := LogFileName(noLog, mask, id);
      && (r.NoFile? <==> noLog || mask == "")
      && (r.MaskUnsupported? <==>
            !noLog && mask != "" && !NoMatch(mask, "%s") && multiset(mask)['%'] != 1)
      && (r.NoDirectoryPart? <==>
            !noLog && mask != "" && '/' !in mask
            && !(!NoMatch(mask, "%s") && multiset(mask)['%'] != 1))
      && (r.FileAt? <==>
            !noLog && mask != "" && '/' in mask
            && !(!NoMatch(mask, "%s") && multiset(mask)['%'] != 1))
      && (r.FileAt? && NoMatch(mask, "%s") ==> r.name == mask)
      && (r.FileAt? && !NoMatch(mask, "%s") ==>
            exists i :: OccursAt(mask, "%s", i) && r.name == mask[..i] + CleanId(id) + mask[i + 2..])
  {
    var f := FormatMask(mask, id);
    if f.Some? {
      assert '/' in f.value <==> multiset(f.value)['/'] > 0;
      assert '/' in mask <==> multiset(mask)['/'] > 0;
    }
  }

  /** Whatever the session id, the file name has as many '/' as the mask. */
  lemma LogFileNameKeepsSlashCount(noLog: bool, mask: string, id: string)
    requires LogFileName(noLog, mask, id).FileAt?
    ensures multiset(LogFileName(noLog, mask, id).name)['/'] == multiset(mask)['/']
  {
  }

  /** The directory part of a name: all of it up to and including its last '/'. */
  function DirPart(s: string): (d: string)
    ensures d <= s
    ensures d == [] || d[|d| - 1] == '/'
  {
    if s == [] then []
    else if s[|s| - 1] == '/' then s
    else DirPart(s[..|s| - 1])
  }

  lemma {:induction false} DirPartAppend(head: string, tail: string)
    requires '/' !in tail
    ensures DirPart(head + tail) == DirPart(head)
    decreases |tail|
  {
    if tail == [] {
      assert head + tail == head;
    } else {
      var s := head + tail;
      assert s[|s| - 1] == tail[|tail| - 1];
      assert s[..|s| - 1] == head + tail[..|tail| - 1];
      DirPartAppend(head, tail[..|tail| - 1]);
    }
  }

  lemma CleanIdHasNoSlash(id: string)
    ensures '/' !in CleanId(id)
  {
    var c := CleanId(id);
    assert forall j :: 0 <= j < |c| ==> c[j] != '/';
  }

  lemma SubstituteKeepsDirPart(mask: string, i: nat, text: string)
    requires OccursAt(mask, "%s", i) && '/' !in text && '/' !in mask[i + 2..]
    ensures DirPart(Substitute(mask, i, text)) == DirPart(mask)
  {
    var before, after := mask[..i], mask[i + 2..];
    assert mask == before + ("%s" + after);
    assert Substitute(mask, i, text) == before + (text + after);
    DirPartAppend(before, "%s" + after);
    DirPartAppend(before, text + after);
  }

  /**
   * When no '/' follows a `%s` of the mask (the id goes into the last
   * component of the path), the file name has the directory part of the
   * mask: the id chooses the file within the mask's directory and no other
   * directory is created. The cleaned id may still be "." or "..".
   */
  lemma LogFileInMaskDirectory(noLog: bool, mask: string, id: string)
    requires LogFileName(noLog, mask, id).FileAt?
    requires forall i :: OccursAt(mask, "%s", i) ==> '/' !in mask[i + 2..]
    ensures DirPart(LogFileName(noLog, mask, id).name) == DirPart(mask)
  {
    match FirstMatch(mask, "%s")
    case None =>
    case Some(i) =>
      CleanIdHasNoSlash(id);
      SubstituteKeepsDirPart(mask, i, CleanId(id));
  }
}
