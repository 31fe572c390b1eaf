/** A report document as the ordered list of blocks python-docx is asked to add:
    `add_heading(text, 0)` is a title, `add_heading(text, level)` a heading,
    `add_paragraph(text)` a paragraph. */
module Document {

  datatype Block =
    | Title(text: string)
    | Heading(level: nat, text: string)
    | Paragraph(text: string)
}
