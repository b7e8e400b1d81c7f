/**
 * The playground's language catalogue: the selectable languages with their
 * file extensions, the starter program each one opens with, and the editor's
 * syntax profile per language id.
 */
module Languages {
  import opened Optional

  /** One entry of the language picker. */
  datatype Language = Language(id: string, name: string, extension: string)

  /** The picker's entries, in display order. */
  const Catalogue: seq<Language> := [
    Language("javascript", "JavaScript", "js"),
    Language("typescript", "TypeScript", "ts"),
    Language("python", "Python", "py"),
    Language("cpp", "C++", "cpp"),
    Language("c", "C", "c"),
    Language("java", "Java", "java"),
    Language("rust", "Rust", "rs"),
    Language("go", "Go", "go"),
    Language("ruby", "Ruby", "rb")
  ]

  /** The first entry of `ls` whose id is `id` (`ls.find(l => l.id === id)`). */
  function FindById(ls: seq<Language>, id: string): (r: Option<Language>)
    ensures r.None? <==> forall k :: 0 <= k < |ls| ==> ls[k].id != id
    ensures r.Some? ==> exists k :: 0 <= k < |ls| && ls[k] == r.value && r.value.id == id
                                  && forall j :: 0 <= j < k ==> ls[j].id != id
    decreases |ls|
  {
    if ls == [] then None
    else if ls[0].id == id then Some(ls[0])
    else
      var r := FindById(ls[1..], id);
      if r.Some? then
        var k :| 0 <= k < |ls[1..]| && ls[1..][k] == r.value && r.value.id == id
                 && forall j :: 0 <= j < k ==> ls[1..][j].id != id;
        assert ls[k + 1] == r.value;
        r
      else r
  }

  predicate IsKnown(id: string)
  {
    id in {"javascript", "typescript", "python", "cpp", "c", "java", "rust", "go", "ruby"}
  }

  /** The nine known ids are exactly the ids the table lists. */
  lemma KnownIdsListed(id: string)
    ensures IsKnown(id) <==> exists k :: 0 <= k < |Catalogue| && Catalogue[k].id == id
  {
    if id == "javascript" { assert Catalogue[0].id == id; }
    else if id == "typescript" { assert Catalogue[1].id == id; }
    else if id == "python" { assert Catalogue[2].id == id; }
    else if id == "cpp" { assert Catalogue[3].id == id; }
    else if id == "c" { assert Catalogue[4].id == id; }
    else if id == "java" { assert Catalogue[5].id == id; }
    else if id == "rust" { assert Catalogue[6].id == id; }
    else if id == "go" { assert Catalogue[7].id == id; }
    else if id == "ruby" { assert Catalogue[8].id == id; }
  }

  /** `languages.find(l => l.id === id)`: found exactly for the nine known ids, and the entry found has that id. */
  function FindLanguage(id: string): (r: Option<Language>)
    ensures r.Some? <==> IsKnown(id)
    ensures r.Some? ==> r.value in Catalogue && r.value.id == id
  {
    KnownIdsListed(id);
    FindById(Catalogue, id)
  }

  /** `langInfo?.extension || "txt"`: the file extension for a language id, "txt" when it is unknown. */
  function ExtensionOf(id: string): (ext: string)
    ensures ext != ""
    ensures !IsKnown(id) ==> ext == "txt"
    ensures IsKnown(id) ==> exists k :: 0 <= k < |Catalogue| && Catalogue[k].id == id && Catalogue[k].extension == ext
  {
    var info := FindLanguage(id);
    if info.Some? && info.value.extension != "" then info.value.extension else "txt"
  }

  /** For a table language neither fallback is taken: its extension is not "txt" and its starter program is not empty. */
  lemma KnownIdAvoidsFallbacks(id: string)
    requires IsKnown(id)
    ensures ExtensionOf(id) != "txt" && TemplateOf(id) != ""
  {
    var ext := ExtensionOf(id);
    var k :| 0 <= k < |Catalogue| && Catalogue[k].id == id && Catalogue[k].extension == ext;
    assert Catalogue[k].extension != "txt";
  }

  /** The `defaultCode` record: the starter program of each known language. */
  function DefaultCode(id: string): (r: Option<string>)
    ensures r.Some? <==> IsKnown(id)
    ensures r.Some? ==> r.value != ""
  {
    match id
    case "javascript" => Some(JavaScriptTemplate)
    case "typescript" => Some(TypeScriptTemplate)
    case "python" => Some(PythonTemplate)
    case "cpp" => Some(CppTemplate)
    case "c" => Some(CTemplate)
    case "java" => Some(JavaTemplate)
    case "rust" => Some(RustTemplate)
    case "go" => Some(GoTemplate)
    case "ruby" => Some(RubyTemplate)
    case _ => None
  }

  /** `defaultCode[id] || ""`: the starter program, or the empty text for an unknown id. */
  function TemplateOf(id: string): (code: string)
    ensures IsKnown(id) <==> code != ""
    ensures IsKnown(id) ==> Some(code) == DefaultCode(id)
  {
    var t := DefaultCode(id);
    if t.Some? && t.value != "" then t.value else ""
  }

  /** The editor's syntax profiles (the CodeMirror language packages). */
  datatype SyntaxProfile =
    | JavaScriptSyntax(typescript: bool)
    | PythonSyntax
    | CppSyntax
    | JavaSyntax
    | RustSyntax

  /** `getLanguageExtension`: every id gets a profile; ids without a package of their own fall back to plain JavaScript. */
  function GetLanguageExtension(id: string): (p: SyntaxProfile)
    ensures p == JavaScriptSyntax(true) <==> id == "typescript"
    ensures p == JavaScriptSyntax(false) <==> id !in {"typescript", "python", "cpp", "c", "java", "rust"}
    ensures p == PythonSyntax <==> id == "python"
    ensures p == CppSyntax <==> id == "cpp" || id == "c"
    ensures p == JavaSyntax <==> id == "java"
    ensures p == RustSyntax <==> id == "rust"
  {
    match id
    case "javascript" => JavaScriptSyntax(id == "typescript")
    case "typescript" => JavaScriptSyntax(id == "typescript")
    case "python" => PythonSyntax
    case "cpp" => CppSyntax
    case "c" => CppSyntax
    case "java" => JavaSyntax
    case "rust" => RustSyntax
    case _ => JavaScriptSyntax(false)
  }

  /** Every catalogue entry has a distinct id, a starter program and a profile of its own family. */
  lemma CatalogueWellFormed()
    ensures forall i, j :: 0 <= i < j < |Catalogue| ==> Catalogue[i].id != Catalogue[j].id
    ensures forall k :: 0 <= k < |Catalogue| ==> IsKnown(Catalogue[k].id) && DefaultCode(Catalogue[k].id).Some?
  {
  }

  const JavaScriptTemplate: string := @"// Welcome to CodeCraft Playground!
// Start coding in JavaScript

function greet(name) {
  return `Hello, ${name}! Welcome to CodeCraft.`;
}

console.log(greet(""World""));

// Try the autocomplete - type 'console.' and see suggestions!
"

  const TypeScriptTemplate: string := @"// TypeScript with type safety
interface User {
  name: string;
  age: number;
}

function greetUser(user: User): string {
  return `Hello, ${user.name}! You are ${user.age} years old.`;
}

const user: User = { name: ""Alice"", age: 25 };
console.log(greetUser(user));
"

  const PythonTemplate: string := @"# Welcome to CodeCraft Playground!
# Start coding in Python

def greet(name: str) -> str:
    return f""Hello, {name}! Welcome to CodeCraft.""

print(greet(""World""))

# List comprehension example
numbers = [1, 2, 3, 4, 5]
squares = [n ** 2 for n in numbers]
print(f""Squares: {squares}"")
"

  const CppTemplate: string := @"// Welcome to CodeCraft Playground!
// Start coding in C++

#include <iostream>
#include <string>

std::string greet(const std::string& name) {
    return ""Hello, "" + name + ""! Welcome to CodeCraft."";
}

int main() {
    std::cout << greet(""World"") << std::endl;
    return 0;
}
"

  const CTemplate: string := @"// Welcome to CodeCraft Playground!
// Start coding in C

#include <stdio.h>

void greet(const char* name) {
    printf(""Hello, %s! Welcome to CodeCraft.\n"", name);
}

int main() {
    greet(""World"");
    return 0;
}
"

  const JavaTemplate: string := @"// Welcome to CodeCraft Playground!
// Start coding in Java

public class Main {
    public static String greet(String name) {
        return ""Hello, "" + name + ""! Welcome to CodeCraft."";
    }
    
    public static void main(String[] args) {
        System.out.println(greet(""World""));
    }
}
"

  const RustTemplate: string := @"// Welcome to CodeCraft Playground!
// Start coding in Rust

fn greet(name: &str) -> String {
    format!(""Hello, {}! Welcome to CodeCraft."", name)
}

fn main() {
    println!(""{}"", greet(""World""));
    
    // Vector example
    let numbers = vec![1, 2, 3, 4, 5];
    let squares: Vec<i32> = numbers.iter().map(|n| n * n).collect();
    println!(""Squares: {:?}"", squares);
}
"

  const GoTemplate: string := @"// Welcome to CodeCraft Playground!
// Start coding in Go

package main

import ""fmt""

func greet(name string) string {
    return fmt.Sprintf(""Hello, %s! Welcome to CodeCraft."", name)
}

func main() {
    fmt.Println(greet(""World""))
}
"

  const RubyTemplate: string := @"# Welcome to CodeCraft Playground!
# Start coding in Ruby

def greet(name)
  ""Hello, #{name}! Welcome to CodeCraft.""
end

puts greet(""World"")

# Array manipulation
numbers = [1, 2, 3, 4, 5]
squares = numbers.map { |n| n ** 2 }
puts ""Squares: #{squares}""
"

}
