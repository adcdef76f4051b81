/**
 * The risk badge: a pill showing a risk level's word, coloured by the level
 * and padded by the size. The level type has three values only (there is no
 * `warning` level).
 */
module RiskBadge {
  import opened Optional

  datatype RiskLevel = Safe | Alert | Danger

  datatype Size = Small | Medium | Large

  /** The badge's properties; `None` stands for an omitted one. */
  datatype Badge = Badge(level: RiskLevel, text: Option<string>, size: Option<Size>)

  const BaseClasses: string := "inline-flex items-center gap-2 rounded-full font-semibold"

  /** The word shown for a level when no text is supplied. */
  function DefaultText(level: RiskLevel): string {
    match level
    case Safe => "Seguro"
    case Alert => "Alerta"
    case Danger => "Peligro"
  }

  function ColorClass(level: RiskLevel): string {
    match level
    case Safe => "bg-safe text-safe-foreground"
    case Alert => "bg-alert text-alert-foreground"
    case Danger => "bg-danger text-danger-foreground"
  }

  function SizeClass(size: Size): string {
    match size
    case Small => "px-2 py-1 text-xs"
    case Medium => "px-3 py-1.5 text-sm"
    case Large => "px-4 py-2 text-base"
  }

  /** `label || default`: a supplied non-empty text wins over the level's word. */
  function ShownText(b: Badge): (t: string)
    ensures b.text.Some? && b.text.value != "" ==> t == b.text.value
    ensures !(b.text.Some? && b.text.value != "") ==> t == DefaultText(b.level)
    ensures t != ""
  {
    if b.text.Some? && b.text.value != "" then b.text.value else DefaultText(b.level)
  }

  /** The size in effect: medium unless one is given. */
  function EffectiveSize(b: Badge): (s: Size)
    ensures b.size.None? ==> s == Medium
    ensures b.size.Some? ==> s == b.size.value
  {
    if b.size.Some? then b.size.value else Medium
  }

  /** The three `level === x && classes` arguments, as (condition, classes) pairs. */
  function ColorCandidates(level: RiskLevel): seq<(bool, string)> {
    [ (level == Safe, ColorClass(Safe)),
      (level == Alert, ColorClass(Alert)),
      (level == Danger, ColorClass(Danger)) ]
  }

  /** The conditions of the pairs, position by position. */
  function Conditions(parts: seq<(bool, string)>): seq<bool> {
    seq(|parts|, i requires 0 <= i < |parts| => parts[i].0)
  }

  /** The classes of the pairs whose condition holds, in order. */
  function Applied(parts: seq<(bool, string)>): (out: seq<string>)
    ensures |out| <= |parts|
    ensures forall c :: c in out ==> exists i :: 0 <= i < |parts| && parts[i].0 && parts[i].1 == c
    ensures forall i :: 0 <= i < |parts| && parts[i].0 ==> parts[i].1 in out
  {
    if |parts| == 0 then []
    else
      var tail := parts[1..];
      var rest := Applied(tail);
      var head := if parts[0].0 then [parts[0].1] else [];
      assert forall c :: c in rest ==> exists i :: 0 <= i < |parts| && parts[i].0 && parts[i].1 == c by {
        forall c | c in rest ensures exists i :: 0 <= i < |parts| && parts[i].0 && parts[i].1 == c {
          var j :| 0 <= j < |tail| && tail[j].0 && tail[j].1 == c;
          assert parts[j + 1] == tail[j];
        }
      }
      assert forall i :: 1 <= i < |parts| && parts[i].0 ==> parts[i].1 in rest by {
        forall i | 1 <= i < |parts| && parts[i].0 ensures parts[i].1 in rest {
          assert tail[i - 1] == parts[i];
        }
      }
      head + rest
  }

  /** One class is kept for every condition that holds. */
  lemma {:induction false} AppliedCount(parts: seq<(bool, string)>)
    ensures |Applied(parts)| == multiset(Conditions(parts))[true]
  {
    if |parts| > 0 {
      AppliedCount(parts[1..]);
      assert Conditions(parts) == [parts[0].0] + Conditions(parts[1..]);
    }
  }

  /** Joining keeps the order of its arguments: the classes of a + b are a's then b's. */
  lemma {:induction false} AppliedAppend(a: seq<(bool, string)>, b: seq<(bool, string)>)
    ensures Applied(a + b) == Applied(a) + Applied(b)
  {
    if |a| == 0 {
      assert a + b == b;
    } else {
      assert (a + b)[1..] == a[1..] + b;
      AppliedAppend(a[1..], b);
    }
  }

  /** Exactly one colour class applies, and it is the level's own. */
  lemma OneColorApplies(level: RiskLevel)
    ensures Applied(ColorCandidates(level)) == [ColorClass(level)]
  {
    var ps := ColorCandidates(level);
    var p2 := ps[2..];
    assert p2[1..] == [];
    assert Applied(p2) == (if level == Danger then [ColorClass(Danger)] else []);
    assert ps[1..][1..] == p2;
    assert Applied(ps[1..]) == (if level == Alert then [ColorClass(Alert)] else []) + Applied(p2);
  }

  /** The class list handed to the class joiner, conditions already decided. */
  function Classes(b: Badge): (cs: seq<string>)
    ensures |cs| == 3
    ensures cs[0] == BaseClasses
    ensures cs[1] == ColorClass(b.level)
    ensures cs[2] == SizeClass(EffectiveSize(b))
  {
    OneColorApplies(b.level);
    [BaseClasses] + Applied(ColorCandidates(b.level)) + [SizeClass(EffectiveSize(b))]
  }

  /** Different levels get different colours and words; different sizes different padding. */
  lemma ClassesDistinguish(l1: RiskLevel, l2: RiskLevel, s1: Size, s2: Size)
    ensures ColorClass(l1) == ColorClass(l2) <==> l1 == l2
    ensures DefaultText(l1) == DefaultText(l2) <==> l1 == l2
    ensures SizeClass(s1) == SizeClass(s2) <==> s1 == s2
  {
  }

  /** A supplied text replaces the word whatever the level. */
  lemma TextOverridesLevel(b: Badge, level: RiskLevel)
    requires b.text.Some? && b.text.value != ""
    ensures ShownText(b.(level := level)) == ShownText(b)
  {
  }

  /** The home view's status badge: the alert level at the large size. */
  function HomeStatusBadge(): (b: Badge)
    ensures ShownText(b) == "Alerta"
    ensures Classes(b)[1] == ColorClass(Alert) && Classes(b)[2] == SizeClass(Large)
  {
    Badge(Alert, None, Some(Large))
  }
}
