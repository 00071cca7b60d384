/** `apply_patch` (main.py:36-48): a diff that is empty or whitespace only is
    accepted without running the patch tool; any other diff is handed to
    `patch -p1 -u`, and the result is whether the tool succeeded. The tool
    is a parameter: it reports whether the patch applied. */
module Patch {
  import opened Text

  /** The input `patch` is run on, or None when it is not run at all. */
  function ToolInput(diff: string): (r: Option<string>)
    ensures r.None? <==> AllSpace(diff)
    ensures r.Some? ==> r.value == diff
  {
    if Strip(diff) == [] then None else Some(diff)
  }

  function ApplyPatch(diff: string, tool: string -> bool): (ok: bool)
    ensures AllSpace(diff) ==> ok
    ensures !AllSpace(diff) ==> (ok <==> tool(diff))
  {
    var input := ToolInput(diff);
    if input.None? then true else tool(input.value)
  }
}
