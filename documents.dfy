/** The document record that flows between the loader, the splitter, the vector store and the agents. */
module Documents {

  /** A langchain `Document`: the text of one page or chunk, and its metadata. */
  datatype Document = Document(pageContent: string, metadata: map<string, string>)
}
