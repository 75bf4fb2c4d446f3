/** What the agent is told about a tool (`StructuredTool.from_function`). */
module Tooling {

  datatype Tool = Tool(name: string, description: string)
}
