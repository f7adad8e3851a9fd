/**
 * The two headings of the prompts' context blocks. The prompt builders write
 * them and the progress relay cuts the echoed transcript at them.
 */
module Headings {
  /** The heading of the client line of an analysis context. */
  const ClientHeading: string := "> 클라이언트 요구사항:"

  /** The context heading of the report-compiling prompt. */
  const ContextHeading: string := "참고 맥락:"
}
