/**
 * Diagnostics raised while the passes of a pipeline run, and the handler
 * that the compiler context installs for the duration of one run
 * (`CompilerContextImpl::run` in dpcomp/src/compiler/compiler.cpp).
 */
module Diagnostics {

  datatype Severity = Note | Warning | Error | Remark

  /** A diagnostic: its severity, its message and the messages of its attached notes. */
  datatype Diagnostic = Diagnostic(severity: Severity, message: string, notes: seq<string>)

  /** Every note on a line of its own: "\n" is written before each one. */
  function NotesText(notes: seq<string>): string
  {
    if notes == [] then "" else "\n" + notes[0] + NotesText(notes[1..])
  }

  /** The text the handler writes for one retained diagnostic. */
  function Rendered(d: Diagnostic): string
  {
    d.message + NotesText(d.notes)
  }

  /**
   * Everything the handler has written after seeing `ds`, in emission order.
   * Nothing is written exactly when every error among `ds` renders as empty text.
   */
  function Captured(ds: seq<Diagnostic>): (r: string)
    ensures r == "" <==> forall k :: 0 <= k < |ds| && ds[k].severity == Error ==> Rendered(ds[k]) == ""
  {
    if ds == [] then ""
    else (if ds[0].severity == Error then Rendered(ds[0]) else "") + Captured(ds[1..])
  }

  /** The error-severity diagnostics of `ds`, in their order (`ErrorsOfAppend`). */
  function ErrorsOf(ds: seq<Diagnostic>): (r: seq<Diagnostic>)
    ensures |r| <= |ds|
    ensures forall k :: 0 <= k < |r| ==> r[k].severity == Error && r[k] in ds
    ensures forall d :: d in ds && d.severity == Error ==> d in r
  {
    if ds == [] then []
    else (if ds[0].severity == Error then [ds[0]] else []) + ErrorsOf(ds[1..])
  }

  /** Filtering a joined stream keeps the order: the errors of the first part, then those of the second. */
  lemma {:induction false} ErrorsOfAppend(a: seq<Diagnostic>, b: seq<Diagnostic>)
    ensures ErrorsOf(a + b) == ErrorsOf(a) + ErrorsOf(b)
  {
    if a == [] {
      assert a + b == b;
    } else {
      assert (a + b)[1..] == a[1..] + b;
      ErrorsOfAppend(a[1..], b);
    }
  }

  lemma {:induction false} NotesTextSnoc(notes: seq<string>, note: string)
    ensures NotesText(notes + [note]) == NotesText(notes) + "\n" + note
  {
    if notes == [] {
      assert [note][1..] == [];
    } else {
      assert (notes + [note])[1..] == notes[1..] + [note];
      NotesTextSnoc(notes[1..], note);
    }
  }

  /** Capturing is a homomorphism: what is written for `a + b` is what is written for `a`, then for `b`. */
  lemma {:induction false} CapturedAppend(a: seq<Diagnostic>, b: seq<Diagnostic>)
    ensures Captured(a + b) == Captured(a) + Captured(b)
  {
    if a == [] {
      assert a + b == b;
    } else {
      assert (a + b)[1..] == a[1..] + b;
      CapturedAppend(a[1..], b);
    }
  }

  /** A log that captured one batch and then another holds the text of both batches, in that order. */
  lemma CapturedExtends(log: string, a: seq<Diagnostic>, b: seq<Diagnostic>)
    ensures (log + Captured(a)) + Captured(b) == log + Captured(a + b)
  {
    CapturedAppend(a, b);
  }

  /** Only error-severity diagnostics contribute: dropping all others changes nothing. */
  lemma {:induction false} CapturedKeepsOnlyErrors(ds: seq<Diagnostic>)
    ensures Captured(ds) == Captured(ErrorsOf(ds))
  {
    if ds != [] {
      CapturedKeepsOnlyErrors(ds[1..]);
      var head := if ds[0].severity == Error then [ds[0]] else [];
      CapturedAppend(head, ErrorsOf(ds[1..]));
      if ds[0].severity == Error {
        assert head[1..] == [];
      }
    }
  }

  /** A run that raised no error-severity diagnostic leaves the buffer empty. */
  lemma {:induction false} CapturedWithoutErrors(ds: seq<Diagnostic>)
    requires forall k :: 0 <= k < |ds| ==> ds[k].severity != Error
    ensures Captured(ds) == ""
  {
    if ds != [] {
      CapturedWithoutErrors(ds[1..]);
    }
  }

  /**
   * The handler installed for one run: the text buffer (`err`) that
   * error-severity diagnostics and their notes are appended to.
   */
  class DiagnosticHandler {
    var err: string

    constructor ()
      ensures err == ""
    {
      err := "";
    }

    /** Handle one diagnostic: keep it, notes included, only when it is an error. */
    method Handle(d: Diagnostic)
      modifies this
      ensures err == old(err) + Captured([d])
    {
      assert [d][1..] == [];
      if d.severity == Error {
        err := err + d.message;
        for n := 0 to |d.notes|
          invariant err == old(err) + d.message + NotesText(d.notes[..n])
        {
          NotesTextSnoc(d.notes[..n], d.notes[n]);
          assert d.notes[..n + 1] == d.notes[..n] + [d.notes[n]];
          err := err + "\n" + d.notes[n];
        }
        assert d.notes[..|d.notes|] == d.notes;
      }
    }

    /** Diagnostics raised in turn reach the handler in that order. */
    method HandleAll(ds: seq<Diagnostic>)
      modifies this
      ensures err == old(err) + Captured(ds)
    {
      for n := 0 to |ds|
        invariant err == old(err) + Captured(ds[..n])
      {
        CapturedAppend(ds[..n], [ds[n]]);
        assert ds[..n + 1] == ds[..n] + [ds[n]];
        Handle(ds[n]);
      }
      assert ds[..|ds|] == ds;
    }
  }
}
