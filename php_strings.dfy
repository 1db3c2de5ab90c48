/**
 * The few PHP string and path primitives the resource loader relies on:
 * the truthiness of a string, `explode`/`implode` on one separator
 * character, `dirname`, and path joining.
 */
module PhpStrings {

  /** PHP's `empty()` (equivalently `!$s`) on a string: only "" and "0" are falsy. */
  predicate IsFalsy(s: string)
  {
    s == "" || s == "0"
  }

  /** Index of the first occurrence of `c` in `s`. */
  function IndexOf(s: string, c: char): (i: nat)
    requires c in s
    ensures i < |s| && s[i] == c && c !in s[..i]
  {
    if s[0] == c then 0 else 1 + IndexOf(s[1..], c)
  }

  /** Index of the last occurrence of `c` in `s`. */
  function LastIndexOf(s: string, c: char): (i: nat)
    requires c in s
    ensures i < |s| && s[i] == c && c !in s[i + 1..]
  {
    if s[|s| - 1] == c then |s| - 1 else LastIndexOf(s[..|s| - 1], c)
  }

  /** PHP's `implode(sep, parts)`: the parts glued together with `sep` between neighbours. */
  function Implode(sep: char, parts: seq<string>): (s: string)
    requires |parts| >= 1
    ensures parts[0] <= s
    ensures |parts| >= 2 ==> |s| > |parts[0]| && s[|parts[0]|] == sep
  {
    if |parts| == 1 then parts[0] else parts[0] + [sep] + Implode(sep, parts[1..])
  }

  /** Imploding one more part adds one separator and that part at the end. */
  lemma {:induction false} ImplodeAppend(sep: char, parts: seq<string>, last: string)
    requires |parts| >= 1
    ensures Implode(sep, parts + [last]) == Implode(sep, parts) + [sep] + last
  {
    var longer := parts + [last];
    if |parts| == 1 {
      assert longer[1..] == [last];
    } else {
      assert longer[1..] == parts[1..] + [last];
      ImplodeAppend(sep, parts[1..], last);
    }
  }

  /**
   * PHP's `explode(sep, s)` for a one-character separator: the maximal
   * separator-free pieces of `s`, in order. It never returns an empty list
   * (exploding "" gives [""]), and imploding the pieces gives `s` back.
   */
  function Explode(sep: char, s: string): (parts: seq<string>)
    ensures |parts| >= 1
    ensures forall i :: 0 <= i < |parts| ==> sep !in parts[i]
    ensures Implode(sep, parts) == s
    decreases |s|
  {
    if sep !in s then [s]
    else
      var i := IndexOf(s, sep);
      assert s == s[..i] + [sep] + s[i + 1..];
      [s[..i]] + Explode(sep, s[i + 1..])
  }

  /** Exploding a separator-free prefix followed by the separator peels that prefix off. */
  lemma {:induction false} ExplodeCons(sep: char, head: string, tail: string)
    requires sep !in head
    ensures Explode(sep, head + [sep] + tail) == [head] + Explode(sep, tail)
  {
    var s := head + [sep] + tail;
    assert s[|head|] == sep;
    var i := IndexOf(s, sep);
    assert i == |head|;
    assert s[..i] == head;
    assert s[i + 1..] == tail;
  }

  /**
   * PHP's `dirname` on a path whose last component is not followed by a
   * slash: everything before the last '/', "/" when that is the only
   * slash at the front, and "." when there is no slash at all.
   */
  function Dirname(path: string): (dir: string)
    ensures '/' in path && dir != "/" ==> dir + "/" <= path
  {
    if '/' !in path then "."
    else
      var i := LastIndexOf(path, '/');
      if i == 0 then "/" else path[..i]
  }

  /** The directory part of `dir + "/" + name` is `dir` itself. */
  lemma DirnameOfChild(dir: string, name: string)
    requires dir != "" && '/' !in name
    ensures Dirname(dir + "/" + name) == dir
  {
    var path := dir + "/" + name;
    assert path[|dir|] == '/';
    var i := LastIndexOf(path, '/');
    assert i == |dir|;
    assert path[..i] == dir;
  }

  /**
   * Path joining: the components glued with a single '/'. This is what
   * `Controller::join_links` produces for components that carry no
   * slashes at their ends.
   */
  function JoinLinks(parts: seq<string>): (path: string)
    requires |parts| >= 1
    ensures parts[0] <= path
  {
    Implode('/', parts)
  }

  /** The directory part of a joined path is the join of all components but the last. */
  lemma DirnameOfJoin(parts: seq<string>, name: string)
    requires |parts| >= 2 && '/' !in name
    ensures JoinLinks(parts + [name]) == JoinLinks(parts) + "/" + name
    ensures Dirname(JoinLinks(parts + [name])) == JoinLinks(parts)
  {
    ImplodeAppend('/', parts, name);
    DirnameOfChild(JoinLinks(parts), name);
  }
}
