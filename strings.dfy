/** String.prototype.split(' ') and its inverse, join(' '). */
module Strings {

  /** s.split(' '): the fields between single spaces, in order. There is always
      at least one field, and two adjacent spaces give an empty field. */
  function Split(s: string): (fields: seq<string>)
    ensures |fields| >= 1
    ensures forall k :: 0 <= k < |fields| ==> ' ' !in fields[k]
  {
    if s == [] then [""]
    else
      var rest := Split(s[1..]);
      if s[0] == ' ' then [""] + rest
      else [[s[0]] + rest[0]] + rest[1..]
  }

  /** fields.join(' ') */
  function Join(fields: seq<string>): string
    requires |fields| >= 1
  {
    if |fields| == 1 then fields[0] else fields[0] + " " + Join(fields[1..])
  }

  /** Splitting loses nothing: joining the fields again gives back the string. */
  lemma {:induction false} JoinSplit(s: string)
    ensures Join(Split(s)) == s
  {
    if s != [] {
      var rest := Split(s[1..]);
      JoinSplit(s[1..]);
      if s[0] != ' ' && |rest| > 1 {
        assert Join(Split(s)) == [s[0]] + (rest[0] + " " + Join(rest[1..]));
      }
    }
  }

  /** A word without spaces is glued onto the first field of what follows it. */
  lemma {:induction false} SplitAfterWord(w: string, s: string)
    requires ' ' !in w
    ensures Split(w + s) == [w + Split(s)[0]] + Split(s)[1..]
  {
    var f := Split(s);
    if w == [] {
      assert w + s == s && w + f[0] == f[0];
    } else {
      SplitAfterWord(w[1..], s);
      assert (w + s)[1..] == w[1..] + s;
      var rest := Split(w[1..] + s);
      assert rest[0] == w[1..] + f[0] && rest[1..] == f[1..];
      assert (w + s)[0] == w[0] && w[0] != ' ';
      assert [w[0]] + (w[1..] + f[0]) == w + f[0];
    }
  }

  /** Joining fields that hold no space and splitting again gives the fields
      back: split(' ') recovers exactly the fields of a space-separated line. */
  lemma {:induction false} SplitJoin(fields: seq<string>)
    requires |fields| >= 1
    requires forall k :: 0 <= k < |fields| ==> ' ' !in fields[k]
    ensures Split(Join(fields)) == fields
  {
    if |fields| == 1 {
      SplitAfterWord(fields[0], "");
      assert fields[0] + "" == fields[0];
    } else {
      var rest := Join(fields[1..]);
      SplitJoin(fields[1..]);
      assert Join(fields) == fields[0] + (" " + rest);
      SplitAfterWord(fields[0], " " + rest);
      assert (" " + rest)[1..] == rest;
      assert Split(" " + rest) == [""] + fields[1..];
      assert fields[0] + "" == fields[0];
      assert [fields[0]] + fields[1..] == fields;
    }
  }
}
