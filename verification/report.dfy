/**
 The inventory report: the platform glyph of a group header, the node suffix
 and last-upgrade label of a VM line.
 */
module Report {
  import opened Text
  import opened Decimal
  import opened Types
  import opened Trace

  /** Nerd Font glyphs: AWS logo, GCP logo, generic cloud. */
  const AwsIcon: string := "\U{f270}"
  const GcpIcon: string := "\U{e7b2}"
  const GenericIcon: string := "\U{f015f}"

  /** `p` spells the upper-case ASCII word `w` in any mix of cases, where a
      long s may stand for an 'S' and a dotless i for an 'I' (they
      upper-case to those letters). */
  predicate CaseVariantOf(p: string, w: string) {
    && |p| == |w|
    && forall i | 0 <= i < |p| ::
         || p[i] == w[i] || p[i] == LowerChar(w[i])
         || (w[i] == 'S' && p[i] == LongS) || (w[i] == 'I' && p[i] == DotlessI)
  }

  predicate UpperWord(w: string) {
    forall i | 0 <= i < |w| :: 'A' <= w[i] <= 'Z'
  }

  lemma ToUpperMatches(p: string, w: string)
    requires UpperWord(w)
    ensures ToUpper(p) == w <==> CaseVariantOf(p, w)
  {
    if CaseVariantOf(p, w) {
      assert forall i | 0 <= i < |p| :: ToUpper(p)[i] == w[i];
    }
    if ToUpper(p) == w {
      assert forall i | 0 <= i < |p| :: UpperChar(p[i]) == w[i];
    }
  }

  /** `getPlatformIcon`: chosen by the upper-cased platform name. */
  function PlatformIcon(platform: string): (icon: string)
    ensures icon == AwsIcon <==> CaseVariantOf(platform, "AWS")
    ensures icon == GcpIcon <==> CaseVariantOf(platform, "GCP")
    ensures icon == GenericIcon <==> !CaseVariantOf(platform, "AWS") && !CaseVariantOf(platform, "GCP")
  {
    ToUpperMatches(platform, "AWS");
    ToUpperMatches(platform, "GCP");
    var u := ToUpper(platform);
    if u == "AWS" then AwsIcon
    else if u == "GCP" then GcpIcon
    else GenericIcon
  }

  /** Lower- or upper-casing the platform name never changes its glyph. */
  lemma PlatformIconIgnoresCase(platform: string)
    ensures PlatformIcon(ToLower(platform)) == PlatformIcon(platform)
    ensures PlatformIcon(ToUpper(platform)) == PlatformIcon(platform)
  {
    assert ToUpper(ToLower(platform)) == ToUpper(platform);
    assert ToUpper(ToUpper(platform)) == ToUpper(platform);
  }

  /** The display suffix of a VM name: everything after the last hyphen, or
      the whole name when it has none. */
  function NodeSuffix(name: string): string {
    name[LastIndex(name, '-') + 1..]
  }

  /** The suffix ends the name, holds no hyphen, and is either the whole
      name or preceded by a hyphen. */
  lemma NodeSuffixShape(name: string)
    ensures var suffix := NodeSuffix(name);
            && |suffix| <= |name| && suffix == name[|name| - |suffix|..]
            && (forall i | 0 <= i < |suffix| :: suffix[i] != '-')
            && (|suffix| < |name| ==> name[|name| - |suffix| - 1] == '-')
  {
    var k := LastIndex(name, '-');
    LastIndexSpec(name, '-');
    var suffix := NodeSuffix(name);
    assert suffix == name[k + 1..];
    assert |suffix| == |name| - k - 1;
    assert |name| - |suffix| == k + 1;
    forall i | 0 <= i < |suffix|
      ensures suffix[i] != '-'
    {
      assert suffix[i] == name[k + 1 + i];
    }
  }

  lemma NodeSuffixWithoutHyphen(name: string)
    requires forall i | 0 <= i < |name| :: name[i] != '-'
    ensures NodeSuffix(name) == name
  {
    LastIndexSpec(name, '-');
  }

  lemma NodeSuffixExample()
    ensures NodeSuffix("grp-aws-07") == "07"
    ensures NodeSuffix("standalone") == "standalone"
  {
    var n := "grp-aws-07";
    assert n[7] == '-' && n[8] == '0' && n[9] == '7';
    var k := LastIndex(n, '-');
    LastIndexSpec(n, '-');
    assert k == 7;
    assert n[8..] == "07";
    var m := "standalone";
    assert forall i | 0 <= i < |m| :: m[i] != '-';
    NodeSuffixWithoutHyphen(m);
  }

  /** Shown for a VM that was never upgraded. */
  const NeverUpgraded: string := "None"

  /** The last-upgrade column: the sentinel for time 0, otherwise the local
      rendering of the epoch seconds supplied by `formatTime`. */
  function UpgradeLabel(t: int, formatTime: int -> string): string {
    if t == 0 then NeverUpgraded else formatTime(t)
  }

  /** The layout "DD-MM-YYYY HH:MM:SS" of a rendered time. */
  predicate DatePattern(s: string) {
    && |s| == 19
    && s[2] == '-' && s[5] == '-' && s[10] == ' ' && s[13] == ':' && s[16] == ':'
    && forall i | 0 <= i < 19 && i !in {2, 5, 10, 13, 16} :: IsDigit(s[i])
  }

  /** With a renderer that keeps to the date layout, the label is the
      sentinel exactly when the VM was never upgraded. */
  lemma UpgradeLabelUnambiguous(t: int, formatTime: int -> string)
    requires t != 0 ==> DatePattern(formatTime(t))
    ensures UpgradeLabel(t, formatTime) == NeverUpgraded <==> t == 0
  {
    if t != 0 {
      assert DatePattern(formatTime(t));
    }
  }

  /** The header line of a group. */
  function Header(g: Group): Action {
    GroupHeader(PlatformIcon(g.platform), g.platform, g.id, g.name, g.region, |g.vms|)
  }

  /** The report line of a VM; the IP column reads its first network instance. */
  function Line(vm: Vm, formatTime: int -> string): Action
    requires |vm.instances| > 0
  {
    VmLine(vm.id, NodeSuffix(vm.name), vm.opStatus,
           UpgradeLabel(vm.lastUpgradeTime, formatTime), vm.status, vm.instances[0].ipStart)
  }
}
