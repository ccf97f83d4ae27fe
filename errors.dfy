/** The exceptions the converter raises, one constructor per cause. */
module Errors {

  datatype Error =
    | UnreadableXml(path: string)     // ElementTree.parse raised: missing file or malformed XML
    | MissingElement(tag: string)     // `find(tag)` gave None and the next access on it raised
    | MissingTermNode(tag: string)    // `elem[0]` on an element without children (IndexError)
    | InvalidArity(text: string)      // `int(text)` raised ValueError
    | UnresolvedSymbol                // `None.is_constant()` while printing (AttributeError)
    | EmptySignature(name: string)    // `signature[-1]` on an empty sort list (IndexError)
    | FileExists(path: string)        // `write_to_file` refused an existing path
}
