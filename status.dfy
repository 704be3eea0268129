/** The dashboard's status badge: a conversation status, compared without
    regard to case, selects one of four Tailwind colour classes. */
module StatusBadge {

  /** `toLowerCase` on one character, restricted to ASCII letters (see the
      README for why this gives the same badge as full Unicode lowering). */
  function LowerChar(c: char): (d: char)
    ensures 'A' <= c <= 'Z' ==> 'a' <= d <= 'z' && d as int == c as int + 32
    ensures !('A' <= c <= 'Z') ==> d == c
  {
    if 'A' <= c <= 'Z' then (c as int + 32) as char else c
  }

  /** `status.toLowerCase()`: every character lowered, nothing else changed. */
  function ToLower(s: string): (r: string)
    ensures |r| == |s|
    ensures forall i :: 0 <= i < |s| ==> r[i] == LowerChar(s[i])
  {
    if s == [] then [] else [LowerChar(s[0])] + ToLower(s[1..])
  }

  /** No ASCII capital letter in `s`. */
  predicate NoCapitals(s: string) {
    forall i :: 0 <= i < |s| ==> !('A' <= s[i] <= 'Z')
  }

  const Green: string := "bg-green-100 text-green-800"
  const Red: string := "bg-red-100 text-red-800"
  const Yellow: string := "bg-yellow-100 text-yellow-800"
  const Gray: string := "bg-gray-100 text-gray-800"

  /** `getStatusColor`: the three known statuses, matched after lowering,
      and grey for anything else. */
  function StatusColor(status: string): (r: string)
    ensures r == Green || r == Red || r == Yellow || r == Gray
    ensures r == Green <==> ToLower(status) == "finalizado"
    ensures r == Red <==> ToLower(status) == "abandonado"
    ensures r == Yellow <==> ToLower(status) == "em andamento"
    ensures r == Gray <==> ToLower(status) !in {"finalizado", "abandonado", "em andamento"}
  {
    match ToLower(status)
    case "finalizado" => Green
    case "abandonado" => Red
    case "em andamento" => Yellow
    case _ => Gray
  }

  /** Lowering leaves no capital letter and changes nothing else. */
  lemma {:induction false} ToLowerNormalises(s: string)
    ensures NoCapitals(ToLower(s))
    ensures NoCapitals(s) ==> ToLower(s) == s
  {
    var r := ToLower(s);
    forall i | 0 <= i < |r| ensures !('A' <= r[i] <= 'Z') {
      assert r[i] == LowerChar(s[i]);
    }
    if NoCapitals(s) {
      assert forall i :: 0 <= i < |s| ==> r[i] == s[i];
    }
  }

  /** Lowering twice is lowering once. */
  lemma ToLowerIdempotent(s: string)
    ensures ToLower(ToLower(s)) == ToLower(s)
  {
    ToLowerNormalises(s);
    ToLowerNormalises(ToLower(s));
  }

  /** Two statuses that differ only in the case of their letters get the
      same badge. */
  lemma {:induction false} CaseInsensitive(a: string, b: string)
    requires |a| == |b|
    requires forall i :: 0 <= i < |a| ==> LowerChar(a[i]) == LowerChar(b[i])
    ensures StatusColor(a) == StatusColor(b)
  {
    assert ToLower(a) == ToLower(b);
  }

  lemma FinalizadoLowered()
    ensures ToLower("FINALIZADO") == "finalizado"
  {
    var s := "FINALIZADO";
    var r := ToLower(s);
    assert forall i :: 0 <= i < |s| ==> r[i] == LowerChar(s[i]);
  }

  /** Capitals do not matter: `"FINALIZADO"` is a finished conversation. */
  lemma UpperCaseExample()
    ensures StatusColor("FINALIZADO") == Green
  {
    FinalizadoLowered();
  }

  /** Surrounding spaces are not trimmed: `"abandonado "` is grey. */
  lemma PaddedExample()
    ensures StatusColor("abandonado ") == Gray
  {
    assert |ToLower("abandonado ")| == 11;
  }
}
