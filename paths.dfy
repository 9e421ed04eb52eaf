/** Paths as `pathlib` sees them: a flag for "anchored at the root" and a
    sequence of already-normalised parts (no empty part, no "."; ".." is kept
    as a part, as pure paths do). */
module Paths {

  datatype Path = Path(absolute: bool, parts: seq<string>)

  /** A relative path of one part, such as `"output.json"`. */
  function Name(part: string): Path
  {
    Path(false, [part])
  }

  /** `a / b`: joining an absolute right operand discards the left one. */
  function Join(a: Path, b: Path): (r: Path)
    ensures b.absolute ==> r == b
    ensures !b.absolute ==> r.absolute == a.absolute && r.parts == a.parts + b.parts
  {
    if b.absolute then b else Path(a.absolute, a.parts + b.parts)
  }

  /** `p.is_relative_to(base)`: a purely lexical test. */
  predicate IsRelativeTo(p: Path, base: Path)
  {
    p.absolute == base.absolute && |base.parts| <= |p.parts| && p.parts[..|base.parts|] == base.parts
  }

  /** `p` lies below `base` and is not `base` itself. */
  predicate StrictlyInside(p: Path, base: Path)
  {
    IsRelativeTo(p, base) && |base.parts| < |p.parts|
  }

  /** Joining is associative, so `d / f / n` needs no parentheses. */
  lemma JoinAssociative(a: Path, b: Path, c: Path)
    ensures Join(Join(a, b), c) == Join(a, Join(b, c))
  {
    if !b.absolute && !c.absolute {
      assert (a.parts + b.parts) + c.parts == a.parts + (b.parts + c.parts);
    }
  }

  /** Joining a non-empty relative path onto a path that is relative to
      `base` stays strictly inside `base`. */
  lemma JoinStaysInside(p: Path, base: Path, rel: Path)
    requires IsRelativeTo(p, base)
    requires !rel.absolute && |rel.parts| > 0
    ensures StrictlyInside(Join(p, rel), base)
  {
    var r := Join(p, rel);
    assert r.parts[..|base.parts|] == (p.parts + rel.parts)[..|base.parts|] == p.parts[..|base.parts|];
  }

  /** Two different relative names under one directory are two different files. */
  lemma JoinNameInjective(p: Path, x: string, y: string)
    requires x != y
    ensures Join(p, Name(x)) != Join(p, Name(y))
  {
    assert Join(p, Name(x)).parts[|p.parts|] == x;
    assert Join(p, Name(y)).parts[|p.parts|] == y;
  }
}
