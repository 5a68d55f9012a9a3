// Texts cut at slashes: paths of files and of schema nodes.
module PathSegments {

  // split('/')
  function Segments(s: string): (segments: seq<string>)
    ensures segments != []
  {
    if s == "" then [""]
    else
      var rest := Segments(s[1..]);
      if s[0] == '/' then [""] + rest else [[s[0]] + rest[0]] + rest[1..]
  }

  lemma {:induction false} OneSegment(name: string)
    requires '/' !in name
    ensures Segments(name) == [name]
  {
    if name != "" {
      OneSegment(name[1..]);
      assert name == [name[0]] + name[1..];
    }
  }

  lemma {:induction false} FirstSegment(name: string, rest: string)
    requires '/' !in name
    ensures Segments(name + "/" + rest) == [name] + Segments(rest)
  {
    var whole := name + "/" + rest;
    if name == "" {
      assert whole[1..] == rest;
    } else {
      FirstSegment(name[1..], rest);
      assert whole[1..] == name[1..] + "/" + rest;
      assert name == [name[0]] + name[1..];
    }
  }
}
