/**
 The access-log line grammar (LOGLINE in src/log_reporter.js).

 The pattern itself is compiled and run by the JavaScript regular-expression
 engine, so the model does not re-implement it: an engine is a function from a
 line to what `LOGLINE.exec(line)` returns.  What the reporter does with that
 result (reject a missing match, reject empty IP or URL captures) is modelled
 exactly by `Parse`.  The one part of the pattern the model states is the shape
 of the IP capture: four groups of one to three digits separated by dots.
 */
module LogLine {

  datatype Option<+T> = None | Some(value: T)

  /** The named capture groups of a match; a group that did not take part is None. */
  datatype Groups = Groups(ip: Option<string>, url: Option<string>)

  /** The value of `LOGLINE.exec(line)`: null, or a match with its `groups` object. */
  datatype Exec = NoMatch | Match(groups: Option<Groups>)

  /** The two fields of a parsed line that the reporter keeps. */
  datatype Record = Record(ip: string, url: string)

  /** JavaScript truthiness of a capture: defined and not the empty string. */
  predicate Truthy(g: Option<string>)
  {
    g.Some? && g.value != ""
  }

  /** The checks the reporter applies to the result of `LOGLINE.exec`. */
  function Parse(m: Exec): (r: Option<Record>)
    ensures r.Some? ==> r.value.ip != "" && r.value.url != ""
    ensures r.Some? <==> m.Match? && m.groups.Some? && Truthy(m.groups.value.ip) && Truthy(m.groups.value.url)
    ensures r.Some? ==> r.value.ip == m.groups.value.ip.value && r.value.url == m.groups.value.url.value
  {
    if m.NoMatch? then None
    else if m.groups.None? || !Truthy(m.groups.value.url) || !Truthy(m.groups.value.ip) then None
    else Some(Record(m.groups.value.ip.value, m.groups.value.url.value))
  }

  predicate IsDigit(c: char)
  {
    '0' <= c <= '9'
  }

  /** One to three decimal digits: the `[0-9]{1,3}` sub-pattern. */
  predicate IsDigitRun(s: string)
  {
    1 <= |s| <= 3 && forall i | 0 <= i < |s| :: IsDigit(s[i])
  }

  /** `s` is four digit runs with its three dots at positions `i`, `j` and `k`. */
  predicate IpShapeAt(s: string, i: nat, j: nat, k: nat)
  {
    && i < j < k < |s|
    && s[i] == '.' && s[j] == '.' && s[k] == '.'
    && IsDigitRun(s[..i]) && IsDigitRun(s[i + 1..j])
    && IsDigitRun(s[j + 1..k]) && IsDigitRun(s[k + 1..])
  }

  /** The shape of the IP capture: digit runs separated by exactly three dots. */
  predicate IsIpShape(s: string)
  {
    exists i: nat, j: nat, k: nat | i < j < k < |s| :: IpShapeAt(s, i, j, k)
  }

  /** `t` occurs in `s` starting at position `p`. */
  predicate OccursAt(t: string, s: string, p: nat)
  {
    p + |t| <= |s| && s[p..p + |t|] == t
  }

  /** `t` occurs somewhere in `s` (the pattern is not anchored). */
  predicate OccursIn(t: string, s: string)
  {
    exists p: nat | p <= |s| :: OccursAt(t, s, p)
  }

  predicate HasDigit(s: string)
  {
    exists p | 0 <= p < |s| :: IsDigit(s[p])
  }

  /**
   What every engine running LOGLINE guarantees: a match always defines the IP
   and URL groups, and the IP capture has the IP shape and is a piece of the line.
   */
  ghost predicate SoundLogLineEngine(exec: string -> Exec)
  {
    forall line :: exec(line).Match? ==>
      && exec(line).groups.Some?
      && exec(line).groups.value.ip.Some?
      && exec(line).groups.value.url.Some?
      && IsIpShape(exec(line).groups.value.ip.value)
      && OccursIn(exec(line).groups.value.ip.value, line)
  }

  /** An IP-shaped string starts with a digit and is at least seven characters long. */
  lemma IpShapeStartsWithDigit(s: string)
    requires IsIpShape(s)
    ensures 7 <= |s| && IsDigit(s[0])
  {
    var i: nat, j: nat, k: nat :| i < j < k < |s| && IpShapeAt(s, i, j, k);
    assert IsDigit(s[..i][0]);
  }

  /** A line containing an IP-shaped piece contains a digit. */
  lemma IpInLineHasDigit(ip: string, line: string)
    requires IsIpShape(ip) && OccursIn(ip, line)
    ensures HasDigit(line)
  {
    IpShapeStartsWithDigit(ip);
    var p: nat :| p <= |line| && OccursAt(ip, line, p);
    assert line[p..p + |ip|][0] == line[p];
    assert IsDigit(line[p]);
  }

  /** A sound engine cannot match a line that has no digit at all. */
  lemma NoDigitNoMatch(exec: string -> Exec, line: string)
    requires SoundLogLineEngine(exec)
    requires !HasDigit(line)
    ensures exec(line).NoMatch?
    ensures Parse(exec(line)).None?
  {
    if exec(line).Match? {
      IpInLineHasDigit(exec(line).groups.value.ip.value, line);
    }
  }

  /** The IP of the representative line of the data set has the IP shape. */
  lemma RepresentativeIpShape()
    ensures IsIpShape("177.71.128.21")
  {
    var s := "177.71.128.21";
    assert s[..3] == "177" && s[4..6] == "71" && s[7..10] == "128" && s[11..] == "21";
    assert IpShapeAt(s, 3, 6, 10);
  }
}
