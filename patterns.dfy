/** Explicit matchers for the regular expressions of `aws_subnet_usage.py`, each following its
    pattern literally: Python's `re.match` anchors at the start, and `$` (without MULTILINE)
    matches at the end of the text or just before one final newline. Each matcher is proved
    equal to a direct statement of the strings its pattern accepts. */
module Patterns {
  import opened Wrappers
  import opened PyStr

  predicate IsDigit(c: char) { '0' <= c <= '9' }
  predicate IsHexDigit(c: char) { IsDigit(c) || 'a' <= c <= 'f' || 'A' <= c <= 'F' }
  predicate IsLowerHexDigit(c: char) { IsDigit(c) || 'a' <= c <= 'f' }

  predicate All(s: string, p: char -> bool) {
    forall i :: 0 <= i < |s| ==> p(s[i])
  }

  /** The length of the longest run of characters satisfying `p` that starts at `i`. */
  function Run(s: string, i: nat, p: char -> bool): (n: nat)
    requires i <= |s|
    ensures i + n <= |s|
    ensures forall k :: i <= k < i + n ==> p(s[k])
    ensures i + n == |s| || !p(s[i + n])
    decreases |s| - i
  {
    if i < |s| && p(s[i]) then 1 + Run(s, i + 1, p) else 0
  }

  /** A run that is followed by a character outside the class is the longest one. */
  lemma RunUnique(s: string, i: nat, n: nat, p: char -> bool)
    requires i + n < |s| && !p(s[i + n])
    requires forall k :: i <= k < i + n ==> p(s[k])
    ensures Run(s, i, p) == n
  {
  }

  /** What is left for `$`: the text without one final newline. */
  function BeforeFinalNewline(s: string): (r: string)
    ensures r == s || s == r + "\n"
  {
    if |s| > 0 && s[|s| - 1] == '\n' then s[..|s| - 1] else s
  }

  // ---------------------------------------------------------------- `^subnet-[a-fA-F0-9]+$`

  /** `re.match(r'^subnet-[a-fA-F0-9]+$', q)` succeeds. */
  predicate IsSubnetId(q: string) {
    StartsWith(q, "subnet-") && var core := BeforeFinalNewline(q[7..]); |core| > 0 && All(core, IsHexDigit)
  }

  /** The strings the pattern accepts: the prefix, one or more hex digits, and the end, after at
      most one newline. */
  ghost predicate SubnetIdShape(q: string) {
    exists h :: |h| > 0 && All(h, IsHexDigit) && (q == "subnet-" + h || q == "subnet-" + h + "\n")
  }

  lemma SubnetIdMatcherIsPattern(q: string)
    ensures IsSubnetId(q) <==> SubnetIdShape(q)
  {
    if IsSubnetId(q) {
      var h := BeforeFinalNewline(q[7..]);
      assert q == "subnet-" + q[7..];
    }
    if SubnetIdShape(q) {
      var h :| |h| > 0 && All(h, IsHexDigit) && (q == "subnet-" + h || q == "subnet-" + h + "\n");
      assert q[..7] == "subnet-";
      if q == "subnet-" + h {
        assert q[7..] == h;
        assert !IsHexDigit('\n');
        assert h[|h| - 1] != '\n';
      } else {
        assert q[7..] == h + "\n";
      }
    }
  }

  // ------------------------------------------ `^\d{1,3}\.\d{1,3}\.\d{1,3}\.\d{1,3}/\d{1,2}`

  /** `\d{1,3}` then `sep`, starting at `i`; gives the index after the separator. As `sep` is not
      a digit, the digits must be the whole run, so no backtracking can find another split. */
  function Field(s: string, i: nat, sep: char): (r: Option<nat>)
    requires i <= |s|
    ensures r.Some? ==> i < r.value <= |s|
  {
    var n := Run(s, i, IsDigit);
    if 1 <= n <= 3 && i + n < |s| && s[i + n] == sep then Some(i + n + 1) else None
  }

  /** `re.match` of the CIDR pattern: four dot-separated groups of one to three digits, a slash,
      a digit. There is no end anchor and no range check on octets or prefix. */
  predicate IsCidrBlock(q: string) {
    var f1 := Field(q, 0, '.');
    f1.Some? &&
    var f2 := Field(q, f1.value, '.');
    f2.Some? &&
    var f3 := Field(q, f2.value, '.');
    f3.Some? &&
    var f4 := Field(q, f3.value, '/');
    f4.Some? && f4.value < |q| && IsDigit(q[f4.value])
  }

  /** `q[i..j-1]` is one to three digits and `q[j-1]` is `sep`. */
  ghost predicate FieldSpan(q: string, i: int, j: int, sep: char) {
    0 <= i && i + 2 <= j <= i + 4 && j <= |q| && q[j - 1] == sep
    && forall k :: i <= k < j - 1 ==> IsDigit(q[k])
  }

  /** The strings the CIDR pattern accepts, with the groups placed anywhere they fit. */
  ghost predicate CidrShape(q: string) {
    exists j1, j2, j3, j4 ::
      FieldSpan(q, 0, j1, '.') && FieldSpan(q, j1, j2, '.') && FieldSpan(q, j2, j3, '.')
      && FieldSpan(q, j3, j4, '/') && j4 < |q| && IsDigit(q[j4])
  }

  lemma FieldIsSpan(q: string, i: nat, j: int, sep: char)
    requires i <= |q| && !IsDigit(sep)
    ensures Field(q, i, sep) == Some(j) <==> FieldSpan(q, i, j, sep)
  {
    if FieldSpan(q, i, j, sep) {
      RunUnique(q, i, j - 1 - i, IsDigit);
    }
  }

  lemma CidrMatcherIsPattern(q: string)
    ensures IsCidrBlock(q) <==> CidrShape(q)
  {
    if IsCidrBlock(q) {
      var j1 := Field(q, 0, '.').value;
      var j2 := Field(q, j1, '.').value;
      var j3 := Field(q, j2, '.').value;
      var j4 := Field(q, j3, '/').value;
      FieldIsSpan(q, 0, j1, '.');
      FieldIsSpan(q, j1, j2, '.');
      FieldIsSpan(q, j2, j3, '.');
      FieldIsSpan(q, j3, j4, '/');
    }
    if CidrShape(q) {
      var j1, j2, j3, j4 :|
        FieldSpan(q, 0, j1, '.') && FieldSpan(q, j1, j2, '.') && FieldSpan(q, j2, j3, '.')
        && FieldSpan(q, j3, j4, '/') && j4 < |q| && IsDigit(q[j4]);
      FieldIsSpan(q, 0, j1, '.');
      FieldIsSpan(q, j1, j2, '.');
      FieldIsSpan(q, j2, j3, '.');
      FieldIsSpan(q, j3, j4, '/');
    }
  }

  // ------------------------------------------------------ ENI_ELB_RE `^eni-[a-f0-9]+ / ELB (.+)$`

  /** `ENI_ELB_RE.match(desc)` and, when it matches, `group(1)`. */
  function ElbCapture(desc: string): Option<string> {
    if !StartsWith(desc, "eni-") then None
    else
      var n := Run(desc, 4, IsLowerHexDigit);
      if n == 0 || !StartsWith(desc[4 + n..], " / ELB ") then None
      else
        var core := BeforeFinalNewline(desc[4 + n + 7..]);
        if |core| > 0 && '\n' !in core then Some(core) else None
  }

  /** The descriptors ENI_ELB_RE accepts, with the text its group captures. */
  ghost predicate ElbShape(desc: string, name: string) {
    |name| > 0 && '\n' !in name &&
    exists h :: |h| > 0 && All(h, IsLowerHexDigit)
      && (desc == "eni-" + h + " / ELB " + name || desc == "eni-" + h + " / ELB " + name + "\n")
  }

  /** A descriptor built the way the pattern reads it is matched, with `name` captured. */
  lemma ElbCaptureOfParts(h: string, name: string, nl: string)
    requires |h| > 0 && All(h, IsLowerHexDigit) && |name| > 0 && '\n' !in name
    requires nl == "" || nl == "\n"
    ensures ElbCapture("eni-" + h + " / ELB " + name + nl) == Some(name)
  {
    ElbDescriptorSplits(h, name, nl);
    assert BeforeFinalNewline(name + nl) == name by {
      if nl == "" {
        assert name[|name| - 1] in name;
        assert name + nl == name;
      }
    }
    ElbCaptureAt("eni-" + h + " / ELB " + name + nl, |h|, name);
  }

  /** Where the parts of a descriptor sit: the hex run is exactly `h`. */
  lemma ElbDescriptorSplits(h: string, name: string, nl: string)
    requires |h| > 0 && All(h, IsLowerHexDigit)
    ensures var desc := "eni-" + h + " / ELB " + name + nl;
      StartsWith(desc, "eni-") && Run(desc, 4, IsLowerHexDigit) == |h|
      && StartsWith(desc[4 + |h|..], " / ELB ") && desc[4 + |h| + 7..] == name + nl
  {
    var tail := " / ELB " + (name + nl);
    var desc := "eni-" + h + tail;
    assert desc == "eni-" + h + " / ELB " + name + nl;
    assert desc[..4] == "eni-";
    assert desc[4..4 + |h|] == h && desc[4 + |h|..] == tail;
    assert tail[..7] == " / ELB " && tail[7..] == name + nl;
    assert desc[4 + |h|] == ' ';
    RunUnique(desc, 4, |h|, IsLowerHexDigit);
  }

  /** The steps of ENI_ELB_RE, once each is known to succeed. */
  lemma ElbCaptureAt(desc: string, n: nat, name: string)
    requires StartsWith(desc, "eni-") && Run(desc, 4, IsLowerHexDigit) == n > 0
    requires StartsWith(desc[4 + n..], " / ELB ") && BeforeFinalNewline(desc[4 + n + 7..]) == name
    requires |name| > 0 && '\n' !in name
    ensures ElbCapture(desc) == Some(name)
  {
  }

  lemma ElbCaptureSound(desc: string, name: string)
    requires ElbCapture(desc) == Some(name)
    ensures ElbShape(desc, name)
  {
    var n := Run(desc, 4, IsLowerHexDigit);
    var h := desc[4..4 + n];
    var rest := desc[4 + n + 7..];
    assert |h| > 0 && All(h, IsLowerHexDigit);
    assert desc == desc[..4] + desc[4..4 + n] + desc[4 + n..4 + n + 7] + rest;
    assert desc == "eni-" + h + " / ELB " + rest;
    if rest != name {
      assert rest == name + "\n";
      assert desc == "eni-" + h + " / ELB " + name + "\n";
    }
  }

  lemma ElbCaptureIsPattern(desc: string, name: string)
    ensures ElbCapture(desc) == Some(name) <==> ElbShape(desc, name)
  {
    if ElbCapture(desc) == Some(name) {
      ElbCaptureSound(desc, name);
    }
    if ElbShape(desc, name) {
      var h :| |h| > 0 && All(h, IsLowerHexDigit)
        && (desc == "eni-" + h + " / ELB " + name || desc == "eni-" + h + " / ELB " + name + "\n");
      if desc == "eni-" + h + " / ELB " + name {
        ElbCaptureOfParts(h, name, "");
        assert desc == "eni-" + h + " / ELB " + name + "";
      } else {
        ElbCaptureOfParts(h, name, "\n");
      }
    }
  }

  /** An ENI whose description is "ELB net/x/y" (a network load balancer's interface) is caught
      by ENI_ELB_RE too: the classic/ALB handler counts it under the name "net/x/y". */
  lemma NetworkEniCapturedAsElbName(h: string, rest: string)
    requires |h| > 0 && All(h, IsLowerHexDigit) && '\n' !in rest
    ensures ElbCapture("eni-" + h + " / ELB net/" + rest) == Some("net/" + rest)
  {
    var name := "net/" + rest;
    assert "eni-" + h + " / ELB net/" + rest == "eni-" + h + " / ELB " + name + "";
    ElbCaptureOfParts(h, name, "");
  }

  // --------------------------------------------------------- ENI_NLB_RE `^ELB net/([^/]+)/.*$`

  /** `ENI_NLB_RE.match(desc)` and its group: `[^/]+` stops at the first slash (it may contain
      newlines), then `.*$` needs the tail to be one line. */
  function NlbCapture(desc: string): (r: Option<string>)
    ensures r.Some? ==> StartsWith(desc, "ELB net/")
  {
    if !StartsWith(desc, "ELB net/") then None
    else
      var rest := desc[8..];
      var k := Find(rest, '/');
      if k <= 0 then None
      else if '\n' in BeforeFinalNewline(rest[k + 1..]) then None
      else Some(rest[..k])
  }

  /** The descriptors ENI_NLB_RE accepts, with the text its group captures: a non-empty
      slash-free group, a slash, then one line with at most one final newline. */
  ghost predicate NlbShape(desc: string, group: string) {
    |group| > 0 && '/' !in group &&
    exists t :: '\n' !in t && (desc == "ELB net/" + group + "/" + t || desc == "ELB net/" + group + "/" + t + "\n")
  }

  /** A descriptor built the way the pattern reads it is matched, with `group` captured. */
  lemma NlbCaptureOfParts(group: string, t: string, nl: string)
    requires |group| > 0 && '/' !in group && '\n' !in t
    requires nl == "" || nl == "\n"
    ensures NlbCapture("ELB net/" + group + "/" + t + nl) == Some(group)
  {
    var rest := group + "/" + (t + nl);
    var desc := "ELB net/" + rest;
    assert desc == "ELB net/" + group + "/" + t + nl;
    assert desc[..8] == "ELB net/" && desc[8..] == rest;
    FindAfter(group, '/', t + nl);
    NoFinalNewline(t, nl);
  }

  /** The first `c` after a `c`-free prefix is at the prefix's end. */
  lemma FindAfter(prefix: string, c: char, suffix: string)
    requires c !in prefix
    ensures var s := prefix + [c] + suffix;
      Find(s, c) == |prefix| && s[..|prefix|] == prefix && s[|prefix| + 1..] == suffix
  {
    var s := prefix + [c] + suffix;
    assert forall i :: 0 <= i < |prefix| ==> s[i] == prefix[i];
    assert s[|prefix|] == c;
  }

  /** A line with no newline, plus at most one newline, leaves the line for `$`. */
  lemma NoFinalNewline(t: string, nl: string)
    requires '\n' !in t && (nl == "" || nl == "\n")
    ensures BeforeFinalNewline(t + nl) == t
  {
    if nl == "" {
      assert t + nl == t;
      if |t| > 0 {
        assert t[|t| - 1] in t;
      }
    } else {
      assert (t + nl)[..|t|] == t;
    }
  }

  /** A string is its part before `k`, the character at `k` and the rest. */
  lemma SplitAround(s: string, k: nat)
    requires k < |s|
    ensures s == s[..k] + [s[k]] + s[k + 1..]
  {
  }

  /** The steps of ENI_NLB_RE, once each is known to succeed, give the descriptor's parts. */
  lemma NlbSteps(desc: string, k: nat)
    requires StartsWith(desc, "ELB net/") && 0 < k < |desc[8..]| && desc[8..][k] == '/'
    requires '/' !in desc[8..][..k] && '\n' !in BeforeFinalNewline(desc[8..][k + 1..])
    ensures NlbShape(desc, desc[8..][..k])
  {
    var rest := desc[8..];
    var group, tail := rest[..k], rest[k + 1..];
    var t := BeforeFinalNewline(tail);
    SplitAround(rest, k);
    assert desc == desc[..8] + rest;
    assert desc == "ELB net/" + group + "/" + tail by {
      Regroup(desc[..8], group, '/', tail);
    }
    if tail != t {
      assert desc == "ELB net/" + group + "/" + t + "\n";
    }
  }

  lemma Regroup(p: string, g: string, c: char, t: string)
    ensures p + (g + [c] + t) == p + g + [c] + t
  {
  }

  lemma NlbCaptureSound(desc: string, group: string)
    requires NlbCapture(desc) == Some(group)
    ensures NlbShape(desc, group)
  {
    var rest := desc[8..];
    var k := Find(rest, '/');
    assert '/' !in rest[..k] by {
      forall i | 0 <= i < k ensures rest[..k][i] != '/' {
        assert rest[..k][i] == rest[i];
      }
    }
    NlbSteps(desc, k);
  }

  lemma NlbCaptureIsPattern(desc: string, group: string)
    ensures NlbCapture(desc) == Some(group) <==> NlbShape(desc, group)
  {
    if NlbCapture(desc) == Some(group) {
      NlbCaptureSound(desc, group);
    }
    if NlbShape(desc, group) {
      var t :| '\n' !in t && (desc == "ELB net/" + group + "/" + t || desc == "ELB net/" + group + "/" + t + "\n");
      if desc == "ELB net/" + group + "/" + t {
        NlbCaptureOfParts(group, t, "");
        assert desc == "ELB net/" + group + "/" + t + "";
      } else {
        NlbCaptureOfParts(group, t, "\n");
      }
    }
  }

  /** ENI_NLB_RE is anchored at "ELB net/", so it never matches a descriptor
      "<eni-id> / <description>" of the address map, whose id starts with "eni-". */
  lemma NlbPatternMissesEniDescriptors(id: string, description: string)
    requires StartsWith(id, "eni-")
    ensures NlbCapture(id + " / " + description) == None
  {
    var d := id + " / " + description;
    assert d[0] == 'e';
  }
}
