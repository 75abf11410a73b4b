/** Diagnostics reported to the user: a message, a kind, an optional location and hints. */
module Diagnostics {
  import opened Wrappers
  import opened Sections

  datatype DiagnosticKind = Error | Warning | Info

  datatype DiagnosticHint = DiagnosticHint(message: string, section: Option<SourceSection>)

  datatype Diagnostic = Diagnostic(
    message: string,
    kind: DiagnosticKind,
    location: Option<SourceSection>,
    hints: seq<DiagnosticHint>)
}
